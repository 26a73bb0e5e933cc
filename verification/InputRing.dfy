/** The receiving half of a TCP channel: the input ring buffer, the scanner that
    counts messages as bytes arrive, and the reader that hands out tokens.

    The scanner and the reader run the same automaton (`Wire.Next`) at different
    positions of one ring.  `Agree` is the invariant that ties them together.
 */
module InputRing {
  import opened Wrappers
  import opened Wire

  /** What can happen to a channel next. */
  datatype Action = Arrive(length: nat) | Dispatch | ReadOne | PeekOne

  datatype Handling = Idle | Triggered | Active

  /** The bytes from position `from` up to position `to`, wrapping at the end of the buffer. */
  function Ring(buf: seq<byte>, from: nat, to: nat): (r: seq<byte>)
    requires from <= |buf| && to <= |buf|
  {
    if from <= to then buf[from..to] else buf[from..] + buf[..to]
  }

  /** How many bytes may be read at `inp` without touching the unread bytes that start at `cur`. */
  function Free(size: nat, cur: nat, inp: nat): (r: nat)
    requires cur <= size && inp < size
  {
    var c := if cur == size then 0 else cur;
    if c <= inp then size - inp - (if c == 0 then 1 else 0) else c - inp - 1
  }

  /** A position past the end of the buffer is one at its start. */
  function Wrapped(size: nat, i: nat): nat { if i >= size then i - size else i }

  /** The end of the run of plain bytes at `out`: the next ESC, or the end of the data or of the buffer. */
  function RunStop(buf: seq<byte>, out: nat, inp: nat): (stop: nat)
    requires out < |buf|
    ensures out < stop <= |buf| || stop == inp
    decreases |buf| - out
  {
    if out + 1 == |buf| || out + 1 == inp || buf[out + 1] == ESC then out + 1 else RunStop(buf, out + 1, inp)
  }

  /** `out` lies on the way from `cur` to `inp`. */
  predicate Between(size: nat, cur: nat, out: nat, inp: nat) {
    if cur <= inp then cur <= out <= inp else cur <= out <= size || out <= inp
  }

  lemma BetweenNext(size: nat, cur: nat, out: nat, inp: nat)
    requires out < size && out != inp && Between(size, cur, out, inp)
    ensures Between(size, cur, out + 1, inp)
  {
  }

  lemma FreeMonotone(size: nat, cur: nat, out: nat, inp: nat)
    requires cur <= size && inp < size && out <= size
    requires Between(size, cur, out, inp)
    ensures Free(size, cur, inp) <= Free(size, out, inp)
  {
  }

  /** The free region is exhausted exactly when all but one slot holds unread bytes. */
  lemma FreeZero(buf: seq<byte>, cur: nat, inp: nat)
    requires cur <= |buf| && inp < |buf|
    ensures Free(|buf|, cur, inp) == 0 <==> |Ring(buf, cur, inp)| == |buf| - 1
    ensures |Ring(buf, cur, inp)| <= |buf| - 1
    ensures cur == inp ==> |buf| >= 2 ==> Free(|buf|, cur, inp) > 0
  {
  }

  lemma RingAdvance(buf: seq<byte>, out: nat, inp: nat)
    requires out < |buf| && inp < |buf| && out != inp
    ensures Ring(buf, out, inp) == [buf[out]] + Ring(buf, out + 1, inp)
  {
  }

  lemma RingSplit(buf: seq<byte>, from: nat, mid: nat, inp: nat)
    requires from <= mid <= |buf| && inp < |buf|
    requires from <= inp ==> mid <= inp
    ensures Ring(buf, from, inp) == buf[from..mid] + Ring(buf, mid, inp)
  {
  }

  /** Filling the free region at `inp` appends to the unread bytes and changes none of them. */
  lemma RingFill(before: seq<byte>, after: seq<byte>, cur: nat, inp: nat, chunk: seq<byte>)
    requires |before| == |after| && cur <= |before| && inp < |before|
    requires |chunk| <= Free(|before|, cur, inp)
    requires forall i :: 0 <= i < |before| && !(inp <= i < inp + |chunk|) ==> after[i] == before[i]
    requires after[inp..inp + |chunk|] == chunk
    ensures Ring(after, cur, if inp + |chunk| == |before| then 0 else inp + |chunk|) == Ring(before, cur, inp) + chunk
  {
    var m := inp + |chunk|;
    if cur <= inp {
      SliceFill(before, after, cur, inp, m);
    } else {
      assert after[cur..] == before[cur..];
      SliceFill(before, after, 0, inp, m);
      assert before[cur..] + (before[..inp] + chunk) == (before[cur..] + before[..inp]) + chunk;
    }
  }

  lemma SliceFill(before: seq<byte>, after: seq<byte>, from: nat, inp: nat, m: nat)
    requires from <= inp <= m <= |before| == |after| && forall i :: from <= i < inp ==> after[i] == before[i]
    ensures after[from..m] == before[from..inp] + after[inp..m]
  {
    assert after[from..inp] == before[from..inp];
  }

  function Flag(b: bool): nat { if b then 1 else 0 }

  /** The message bookkeeping of a channel as a value: what the scanner does with each token. */
  datatype Counters = Counters(eof: bool, longMsg: bool, count: int, handling: Handling, events: nat, broken: bool) {
    function NewMessage(): Counters {
      if handling.Idle? then this.(count := count + 1, handling := Triggered, events := events + 1)
      else this.(count := count + 1)
    }

    function Account(t: Token): Counters {
      if t == EOM then
        if longMsg then this.(longMsg := false, broken := broken || count != 1) else NewMessage()
      else if IsEnd(t) && !eof then this.(eof := true).NewMessage()
      else this
    }

    /** What the reader does when it hands out a token: the end of a message closes the message
        being handled and, if more are waiting, triggers the next one. */
    function Deliver(t: Token): Counters {
      if t != EOM then this
      else if count > 1 then this.(count := count - 1, handling := Triggered, events := events + 1)
      else this.(count := count - 1, handling := Idle)
    }

    function AccountAll(ts: seq<Token>): Counters {
      if ts == [] then this else AccountAll(ts[..|ts| - 1]).Account(ts[|ts| - 1])
    }

    lemma {:induction false} AccountConcat(ts: seq<Token>, us: seq<Token>)
      ensures AccountAll(ts + us) == AccountAll(ts).AccountAll(us)
      decreases |us|
    {
      if us == [] {
        assert ts + us == ts;
      } else {
        assert (ts + us)[..|ts + us| - 1] == ts + us[..|us| - 1];
        AccountConcat(ts, us[..|us| - 1]);
      }
    }

    lemma {:induction false} AccountPlain(bytes: seq<byte>)
      ensures AccountAll(Plain(bytes)) == this
      decreases |bytes|
    {
      if bytes != [] {
        AccountPlain(bytes[..|bytes| - 1]);
        assert Plain(bytes)[..|bytes| - 1] == Plain(bytes[..|bytes| - 1]);
      }
    }

    /** What a whole chunk of tokens does to the counters of a channel that was not at end of stream. */
    lemma {:induction false} AccountSummary(ts: seq<Token>)
      requires !eof && count >= 0 && (longMsg ==> count == 1)
      ensures var r := AccountAll(ts);
              && r.eof == HasEnd(ts)
              && r.longMsg == (longMsg && EomCount(ts) == 0)
              && r.count - Flag(r.longMsg) - Flag(r.eof) == count - Flag(longMsg) + EomCount(ts)
              && r.count >= count
              && r.handling == (if handling.Idle? && r.count > count then Triggered else handling)
              && r.events == events + (if handling.Idle? && r.count > count then 1 else 0)
    {
      if ts != [] {
        var front, t := ts[..|ts| - 1], ts[|ts| - 1];
        AccountSummary(front);
        assert ts == front + [t];
        AppendHasEnd(front, t);
      }
    }

    /** The assertion about long messages fails exactly when the end of the long message
        arrives in the same chunk as, and after, the end of the stream. */
    lemma {:induction false} AccountBroken(ts: seq<Token>)
      requires !eof && count >= 0 && (longMsg ==> count == 1)
      ensures AccountAll(ts).broken == (broken || (longMsg && EndsBeforeEom(ts)))
    {
      if ts != [] {
        var front, t := ts[..|ts| - 1], ts[|ts| - 1];
        AccountBroken(front);
        AccountSummary(front);
        assert ts == front + [t];
        AppendEndsBeforeEom(front, t);
      }
    }
  }

  /** A stream that ends inside a long message whose own end still follows makes the assertion fail. */
  lemma AssertionFails(c: Counters)
    requires !c.eof && c.longMsg && c.count == 1
    ensures c.AccountAll([EOS, EOM]).broken
  {
    c.AccountBroken([EOS, EOM]);
    assert EndsBeforeEom([EOS, EOM]) by {
      assert IsEnd([EOS, EOM][0]) && [EOS, EOM][1] == EOM;
    }
  }

  lemma AppendHasEnd(ts: seq<Token>, t: Token)
    ensures HasEnd(ts + [t]) == (HasEnd(ts) || IsEnd(t))
  {
    var us := ts + [t];
    if HasEnd(ts) {
      var i :| 0 <= i < |ts| && IsEnd(ts[i]);
      assert IsEnd(us[i]);
    } else if IsEnd(t) {
      assert IsEnd(us[|ts|]);
    }
  }

  lemma AppendKeepsEndsBeforeEom(ts: seq<Token>, t: Token, i: nat)
    requires i < |ts| && IsEnd(ts[i]) && EOM !in ts[..i]
    requires EOM in ts[i..] || t == EOM
    ensures EndsBeforeEom(ts + [t])
  {
    var us := ts + [t];
    assert us[..i] == ts[..i];
    assert us[i..] == ts[i..] + [t];
    assert us[i] == ts[i];
  }

  lemma DropLastEndsBeforeEom(ts: seq<Token>, t: Token, i: nat)
    requires i <= |ts| && IsEnd((ts + [t])[i]) && EOM !in (ts + [t])[..i] && EOM in (ts + [t])[i..]
    ensures i < |ts| && IsEnd(ts[i]) && EOM !in ts[..i]
    ensures t == EOM || EOM in ts[i..]
  {
    var us := ts + [t];
    assert us[i..] == ts[i..] + [t];
    assert us[..i] == ts[..i];
  }

  lemma AppendEndsBeforeEom(ts: seq<Token>, t: Token)
    ensures EndsBeforeEom(ts + [t]) == (EndsBeforeEom(ts) || (t == EOM && EomCount(ts) == 0 && HasEnd(ts)))
  {
    var us := ts + [t];
    if EndsBeforeEom(us) {
      var i :| 0 <= i < |us| && IsEnd(us[i]) && EOM !in us[..i] && EOM in us[i..];
      DropLastEndsBeforeEom(ts, t, i);
      assert ts == ts[..i] + ts[i..];
      assert EOM !in ts[i..] ==> EOM !in ts;
      assert EOM in ts <==> EOM in multiset(ts);
    }
    if EndsBeforeEom(ts) {
      var i :| 0 <= i < |ts| && IsEnd(ts[i]) && EOM !in ts[..i] && EOM in ts[i..];
      AppendKeepsEndsBeforeEom(ts, t, i);
    }
    if t == EOM && EomCount(ts) == 0 && HasEnd(ts) {
      var i :| 0 <= i < |ts| && IsEnd(ts[i]);
      assert EOM !in multiset(ts);
      assert forall x :: x in ts[..i] ==> x in ts;
      AppendKeepsEndsBeforeEom(ts, t, i);
    }
  }

  /** Rotating a full ring so that the unread bytes come first keeps them. */
  lemma RingUnwrap(buf: seq<byte>, cur: nat, inp: nat, tmp: seq<byte>)
    requires cur < |buf| && inp < |buf| && Free(|buf|, cur, inp) == 0
    requires |tmp| == 2 * |buf|
    requires forall i :: 0 <= i < |buf| - cur ==> tmp[i] == buf[cur + i]
    requires forall i :: 0 <= i < cur ==> tmp[|buf| - cur + i] == buf[i]
    ensures Ring(tmp, 0, |buf| - 1) == Ring(buf, cur, inp)
  {
  }

  /** The counters against the tokens that have been received and not yet delivered. */
  ghost predicate Counted(book: Counters, pending: seq<Token>) {
    && book.count == EomCount(pending) + Flag(book.longMsg) + Flag(book.eof)
    && (book.longMsg ==> EomCount(pending) == 0)
    && book.events == (if book.handling.Triggered? then 1 else 0)
    && (book.handling.Idle? ==> book.count == 0 || book.eof)
    && (book.handling.Triggered? ==> book.count > 0)
    && (book.handling.Active? ==> EomCount(pending) + Flag(book.longMsg) > 0)
  }

  /** The reader has decoded everything up to and including `plain`; `rest` is what it has
      still to decode.  Running it over `rest` brings it to the scanner's state, and the
      delivered tokens continued by the pending ones are the decoding of all bytes received. */
  ghost predicate Agree(book: Counters, scan: Framing, read: Framing, received: seq<byte>, delivered: seq<Token>,
                        plain: seq<byte>, rest: seq<byte>)
  {
    && Sane(read)
    && scan == After(NEUTRAL, received)
    && After(read, rest) == scan
    && delivered + (Plain(plain) + Decode(read, rest)) == Decode(NEUTRAL, received)
    && Counted(book, Plain(plain) + Decode(read, rest))
  }

  /** Scanning a chunk keeps scanner and reader in agreement. */
  lemma AgreeReceive(book: Counters, scan: Framing, read: Framing, received: seq<byte>, delivered: seq<Token>,
                     plain: seq<byte>, rest: seq<byte>, chunk: seq<byte>)
    requires Agree(book, scan, read, received, delivered, plain, rest) && !book.eof
    ensures Agree(book.AccountAll(Decode(scan, chunk)), After(scan, chunk), read, received + chunk, delivered, plain, rest + chunk)
  {
    hide After, Decode, EomCount, Counters.AccountAll, HasEnd, Plain;
    var ts, decoded := Decode(scan, chunk), Decode(read, rest);
    var pending := Plain(plain) + decoded;
    DecodeConcat(read, rest, chunk);
    DecodeConcat(NEUTRAL, received, chunk);
    assert Plain(plain) + (decoded + ts) == pending + ts;
    assert delivered + (pending + ts) == delivered + pending + ts;
    book.AccountSummary(ts);
    EomCountConcat(pending, ts);
  }

  lemma AgreeFacts(book: Counters, scan: Framing, read: Framing, received: seq<byte>, delivered: seq<Token>,
                   plain: seq<byte>, rest: seq<byte>)
    requires Agree(book, scan, read, received, delivered, plain, rest)
    ensures Sane(scan) && book.count >= 0
    ensures book.longMsg && !book.eof ==> book.count == 1
    ensures book.handling.Idle? ==> book.count == 0 || book.eof
    ensures book.handling.Triggered? ==> book.count > 0
    ensures book.handling.Active? ==> book.count > 0
  {
  }

  /** End of file counts as one more message. */
  lemma AgreeEof(book: Counters, scan: Framing, read: Framing, received: seq<byte>, delivered: seq<Token>,
                 plain: seq<byte>, rest: seq<byte>)
    requires Agree(book, scan, read, received, delivered, plain, rest) && !book.eof
    ensures Agree(book.Account(EOS), scan, read, received, delivered, plain, rest)
  {
    hide After, Decode, EomCount, Plain;
  }

  /** A message that fills the whole buffer is counted before its end has arrived. */
  lemma AgreeLong(book: Counters, scan: Framing, read: Framing, received: seq<byte>, delivered: seq<Token>,
                  plain: seq<byte>, rest: seq<byte>)
    requires Agree(book, scan, read, received, delivered, plain, rest) && book.count == 0
    ensures Agree(book.(longMsg := true).NewMessage(), scan, read, received, delivered, plain, rest)
  {
    hide After, Decode, EomCount, Plain;
  }

  /** The reader passes over a byte that yields no token. */
  lemma AgreeSilent(book: Counters, scan: Framing, read: Framing, received: seq<byte>, delivered: seq<Token>,
                    ch: byte, rest: seq<byte>)
    requires Agree(book, scan, read, received, delivered, [], [ch] + rest)
    requires Next(read, ch).1 == []
    ensures Agree(book, scan, Next(read, ch).0, received, delivered, [], rest)
  {
    DecodeHead(read, ch, rest);
    hide After, Decode, EomCount, Counted;
    assert Next(read, ch).1 + Decode(Next(read, ch).0, rest) == Decode(Next(read, ch).0, rest);
  }

  /** The reader recognises a run of bytes that stand for themselves. */
  lemma AgreeRun(book: Counters, scan: Framing, read: Framing, received: seq<byte>, delivered: seq<Token>,
                 run: seq<byte>, rest: seq<byte>)
    requires Agree(book, scan, read, received, delivered, [], run + rest)
    requires Decode(read, run) == Plain(run)
    ensures Agree(book, scan, After(read, run), received, delivered, run, rest)
  {
    DecodeConcat(read, run, rest);
    hide After, Decode, EomCount, Counted, Plain;
    PlainNothing(Plain(run) + Decode(After(read, run), rest));
  }

  /** Handing out one byte of a run. */
  lemma AgreeDeliver(book: Counters, scan: Framing, read: Framing, received: seq<byte>, delivered: seq<Token>,
                     b: byte, plain: seq<byte>, rest: seq<byte>)
    requires Agree(book, scan, read, received, delivered, [b] + plain, rest)
    ensures Agree(book, scan, read, received, delivered + [Data(b)], plain, rest)
  {
    hide After, Decode, EomCount;
    var after := Plain(plain) + Decode(read, rest);
    assert Plain([b] + plain) == [Data(b)] + Plain(plain);
    assert Plain([b] + plain) + Decode(read, rest) == [Data(b)] + after;
    EomCountOne(Data(b), after);
    assert delivered + ([Data(b)] + after) == delivered + [Data(b)] + after;
  }

  /** Handing out the token that an escape sequence stands for. */
  lemma AgreeToken(book: Counters, scan: Framing, read: Framing, received: seq<byte>, delivered: seq<Token>,
                   ch: byte, t: Token, rest: seq<byte>)
    requires Agree(book, scan, read, received, delivered, [], [ch] + rest)
    requires Next(read, ch).1 == [t] && book.handling.Active?
    ensures Agree(book.Deliver(t), scan, Next(read, ch).0, received, delivered + [t], [], rest)
  {
    hide After, Decode, EomCount, Plain, Next;
    DecodeHead(read, ch, rest);
    var after := Decode(Next(read, ch).0, rest);
    EomCountOne(t, after);
    PlainNothing([t] + after);
    PlainNothing(after);
    assert delivered + ([t] + after) == delivered + [t] + after;
  }

  /** Dispatching the handler event of a waiting message. */
  lemma AgreeStart(book: Counters, scan: Framing, read: Framing, received: seq<byte>, delivered: seq<Token>,
                   plain: seq<byte>, rest: seq<byte>)
    requires Agree(book, scan, read, received, delivered, plain, rest) && book.events > 0
    ensures book.count > 0 && book.handling.Triggered? && book.events == 1
    ensures Agree(book.(events := 0, handling := if book.eof then Idle else Active), scan, read, received, delivered, plain, rest)
  {
    hide After, Decode, EomCount, Plain;
  }

  lemma EomCountOne(t: Token, after: seq<Token>)
    ensures EomCount([t] + after) == EomCount(after) + (if t == EOM then 1 else 0)
  {
  }

  lemma PlainNothing(ts: seq<Token>)
    ensures Plain([]) + ts == ts
  {
  }

  lemma DecodeHead(s: Framing, ch: byte, rest: seq<byte>)
    ensures Decode(s, [ch] + rest) == Next(s, ch).1 + Decode(Next(s, ch).0, rest)
    ensures After(s, [ch] + rest) == After(Next(s, ch).0, rest)
    ensures Sane(s) ==> Sane(Next(s, ch).0)
  {
    DecodeConcat(s, [ch], rest);
    DecodeOne(s, ch);
  }

  /** The bytes from `cur` on, then those before it, in a buffer of twice the size. */
  method Rotated(buf: array<byte>, cur: nat) returns (tmp: array<byte>)
    requires cur < buf.Length
    ensures fresh(tmp) && tmp.Length == 2 * buf.Length
    ensures forall i :: 0 <= i < buf.Length - cur ==> tmp[..][i] == buf[..][cur + i]
    ensures forall i :: 0 <= i < cur ==> tmp[..][buf.Length - cur + i] == buf[..][i]
  {
    var size := buf.Length - cur;
    tmp := new byte[buf.Length * 2];
    forall i | 0 <= i < size { tmp[i] := buf[cur + i]; }
    forall i | 0 <= i < buf.Length - size { tmp[size + i] := buf[i]; }
  }

  /** What an action changes, seen from outside: the bytes that have arrived and those still to come, the tokens handed out,
      the size of the read that is outstanding, the handler events that are posted, and whether a handler runs. */
  datatype Point = Point(received: seq<byte>, wire: seq<byte>, delivered: seq<Token>, reading: Option<nat>, events: nat,
                         active: bool, eof: bool)

  /** One action: bytes arrive if a read is outstanding that has room for them; an event starts a handler unless the stream has
      ended; a handler reads one token, the last of a message being its end, or looks at it. Reading may wait for bytes. */
  ghost predicate Acts(p: Point, a: Action, q: Point, more: bool) {
    match a
    case Arrive(n) =>
      if p.reading.Some? && n <= p.reading.value && n <= |p.wire| then
        more && q.received == p.received + p.wire[..n] && q.wire == p.wire[n..] && q.delivered == p.delivered && q.active == p.active
      else more && q == p
    case Dispatch =>
      if p.events > 0 then more && q == p.(events := p.events - 1, active := !p.eof) else more && q == p
    case ReadOne =>
      if p.active then
        && p.received <= q.received
        && if more then exists t :: q.delivered == p.delivered + [t] && q.active == (t != EOM) else q.delivered == p.delivered && q.eof
      else more && q == p
    case PeekOne =>
      if p.active then p.received <= q.received && q.delivered == p.delivered && (if more then q.active else q.eof)
      else more && q == p
  }

  class InputChannel {
    // InputBuf
    var buf: array<byte>
    var inp: nat
    var scan: Framing        // inp_esc, inp_size_mode, inp_data_size
    var read: Framing        // out_esc, out_size_mode, out_data_size
    var eof: bool
    var longMsg: bool
    var messageCount: int
    var handling: Handling
    // InputStream
    var cur: nat
    var end: int
    // ChannelTCP
    var readPending: bool
    var readPos: nat
    var readSize: nat
    var handlerEvents: nat   // posted and not yet dispatched handle_channel_msg events
    const inputQueue: bool   // ENABLE_InputQueue: the buffer may grow

    var assertBroken: bool   // the assertion on the message count at the end of a long message has failed

    // Environment: the bytes the peer has still to deliver
    var wire: seq<byte>

    ghost const stream: seq<byte>
    ghost var received: seq<byte>
    ghost var delivered: seq<Token>

    ghost predicate RingOk()
      reads this, buf
    {
      && 2 <= buf.Length
      && inp < buf.Length
      && cur <= buf.Length
      && (readPending ==> readPos == inp && 0 < readSize <= Free(buf.Length, cur, inp) && inp + readSize <= buf.Length)
    }

    ghost function Unread(): seq<byte>
      requires RingOk()
      reads this, buf
    {
      Ring(buf[..], cur, inp)
    }

    ghost function Book(): Counters
      reads this
    {
      Counters(eof, longMsg, messageCount, handling, handlerEvents, assertBroken)
    }

    ghost predicate Inv(skip: nat)
      reads this, buf
    {
      && RingOk()
      && received + wire == stream
      && (eof ==> !readPending)
      && skip <= |Unread()|
      && Agree(Book(), scan, read, received, delivered, Unread()[..skip], Unread()[skip..])
    }

    ghost predicate Valid()
      reads this, buf
    {
      && RingOk()
      && cur <= end <= buf.Length
      && Inv(end - cur)
      && (handling.Idle? && !eof ==> readPending)
    }

    /** The tokens received and not yet handed out. */
    ghost function Pending(): seq<Token>
      requires Valid()
      reads this, buf
    {
      Plain(Unread()[..end - cur]) + Decode(read, Unread()[end - cur..])
    }

    lemma InvFacts(skip: nat)
      requires Inv(skip)
      ensures Sane(scan) && messageCount >= 0
      ensures longMsg && !eof ==> messageCount == 1
      ensures handling.Idle? ==> messageCount == 0 || eof
      ensures !handling.Idle? ==> messageCount > 0
    {
      AgreeFacts(Book(), scan, read, received, delivered, Unread()[..skip], Unread()[skip..]);
    }

    // tcp_trigger_message
    method TriggerMessage()
      modifies this`handling, this`handlerEvents
      ensures handling == (if old(handling).Idle? then Triggered else old(handling))
      ensures handlerEvents == old(handlerEvents) + (if old(handling).Idle? then 1 else 0)
    {
      if handling.Idle? {
        handlerEvents := handlerEvents + 1;
        handling := Triggered;
      }
    }

    // ibuf_new_message
    method NewMessage()
      modifies this`messageCount, this`handling, this`handlerEvents
      ensures Book() == old(Book()).NewMessage()
    {
      messageCount := messageCount + 1;
      TriggerMessage();
    }

    // ibuf_eof
    method EndOfFile()
      modifies this`eof, this`messageCount, this`handling, this`handlerEvents
      ensures Book() == old(Book()).Account(EOS)
    {
      if !eof {
        eof := true;
        NewMessage();
      }
    }

    // ibuf_free_size
    method FreeSize() returns (size: nat)
      requires RingOk() && (cur == buf.Length && !eof ==> end == cur)
      modifies this`cur, this`end
      ensures RingOk() && Unread() == old(Unread()) && end - cur == old(end) - old(cur) && cur <= buf.Length
      ensures old(cur) < buf.Length ==> cur == old(cur)
      ensures end == old(end) || cur == end == 0
      ensures eof ==> size == 0 && cur == old(cur)
      ensures !eof ==> cur < buf.Length && size == Free(buf.Length, cur, inp) && inp + size <= buf.Length
      ensures !eof ==> (size == 0 <==> |Unread()| == buf.Length - 1)
    {
      if eof { return 0; }
      FreeZero(buf[..], cur, inp);
      if cur == buf.Length {
        assert Ring(buf[..], cur, inp) == Ring(buf[..], 0, inp);
        cur := 0;
        end := 0;
      }
      if cur <= inp {
        size := buf.Length - inp;
        if cur == 0 { size := size - 1; }
        return;
      }
      return cur - inp - 1;
    }

    // ibuf_trigger_read, with tcp_post_read
    method TriggerRead()
      requires RingOk() && (cur == buf.Length && !eof ==> end == cur) && (eof ==> !readPending)
      modifies this`cur, this`end, this`readPending, this`readPos, this`readSize
      ensures RingOk() && Unread() == old(Unread()) && end - cur == old(end) - old(cur) && cur <= buf.Length
      ensures old(cur) < buf.Length ==> cur == old(cur)
      ensures end == old(end) || cur == end == 0
      ensures eof ==> !readPending && cur == old(cur)
      ensures !eof ==> readPending || |Unread()| == buf.Length - 1
      ensures if old(readPending) then readPending && readSize == old(readSize)
              else readPending ==> readSize == Free(buf.Length, cur, inp)
    {
      hide Ring, Free;
      var size := FreeSize();
      if size > 0 {
        if readPending { return; }
        readPending := true;
        readPos := inp;
        readSize := size;
      }
    }

    /** What the scanner does with the code that follows an ESC. */
    method ScanEscape(ch: byte)
      requires scan == Framing(true, 0, 0)
      modifies this`scan, this`eof, this`longMsg, this`messageCount, this`handling, this`handlerEvents, this`assertBroken
      ensures scan == Next(old(scan), ch).0
      ensures Book() == old(Book()).AccountAll(Next(old(scan), ch).1)
    {
      scan := scan.(esc := false);
      if ch == 0 {
      } else if ch == 1 {
        if longMsg {
          longMsg := false;
          if messageCount != 1 { assertBroken := true; }
        } else {
          NewMessage();
        }
      } else if ch == 2 {
        EndOfFile();
      } else if ch == 3 {
        scan := scan.(sizeMode := 1, dataSize := 0);
      } else {
        EndOfFile();
      }
    }

    /** One byte outside a binary block. */
    method ScanByte(ch: byte)
      requires Sane(scan) && (scan.sizeMode > 0 || scan.dataSize == 0)
      modifies this`scan, this`eof, this`longMsg, this`messageCount, this`handling, this`handlerEvents, this`assertBroken
      ensures scan == Next(old(scan), ch).0
      ensures Book() == old(Book()).AccountAll(Next(old(scan), ch).1)
    {
      if scan.sizeMode > 0 {
        scan := scan.(dataSize := scan.dataSize + (ch % 128) as nat * Pow128(scan.sizeMode - 1), sizeMode := scan.sizeMode + 1);
        if ch < 128 { scan := scan.(sizeMode := 0); }
      } else if scan.esc {
        ScanEscape(ch);
      } else if ch == ESC {
        scan := scan.(esc := true);
      }
    }

    /** One turn of the scanner's loop: a stretch of a binary block, or one byte outside it. */
    method ScanStep(p: nat, len: nat) returns (n: nat)
      requires 0 < len && p + len <= buf.Length
      requires Sane(scan)
      modifies this`scan, this`eof, this`longMsg, this`messageCount, this`handling, this`handlerEvents, this`assertBroken
      ensures 0 < n <= len && Sane(scan)
      ensures scan == After(old(scan), buf[..][p..p + n])
      ensures Book() == old(Book()).AccountAll(Decode(old(scan), buf[..][p..p + n]))
    {
      if scan.sizeMode == 0 && scan.dataSize > 0 {
        // Inside a binary block: skip it, or as much of it as has arrived.
        n := if scan.dataSize < len then scan.dataSize else len;
        DecodeBlock(scan, buf[..][p..p + n]);
        Book().AccountPlain(buf[..][p..p + n]);
        scan := scan.(dataSize := scan.dataSize - n);
      } else {
        n := 1;
        assert buf[..][p..p + 1] == [buf[p]];
        DecodeOne(scan, buf[p]);
        ScanByte(buf[p]);
      }
    }

    /** The scanner's pass over newly read bytes at `inp`: the loop of ibuf_read_done. */
    method Scan(length: nat)
      requires 0 < length && inp + length <= buf.Length && inp < buf.Length
      requires Sane(scan)
      modifies this`inp, this`scan, this`eof, this`longMsg, this`messageCount, this`handling, this`handlerEvents, this`assertBroken
      ensures inp == if old(inp) + length == buf.Length then 0 else old(inp) + length
      ensures scan == After(old(scan), buf[..][old(inp)..old(inp) + length])
      ensures Book() == old(Book()).AccountAll(Decode(old(scan), buf[..][old(inp)..old(inp) + length]))
    {
      hide After, Decode, Counters.AccountAll, Sane;
      var p := inp;
      var len := length;
      ghost var all := buf[..];
      AccountNothing(scan, Book(), all[inp..inp]);
      while len > 0
        invariant 0 <= len <= length
        invariant p == if inp + length - len == buf.Length then 0 else inp + length - len
        invariant inp == old(inp) && buf[..] == all
        invariant Sane(scan)
        invariant scan == After(old(scan), all[inp..inp + length - len])
        invariant Book() == old(Book()).AccountAll(Decode(old(scan), all[inp..inp + length - len]))
      {
        var n := ScanStep(p, len);
        AccountMore(old(scan), old(Book()), all, inp, p, p + n);
        len := len - n;
        p := p + n;
        if p >= buf.Length { p := p - buf.Length; }
      }
      inp := p;
    }

    /** A socket read of `length` bytes has completed: the bytes lie at `inp`, and the scanner
        runs over them. */
    method Receive(length: nat, ghost skip: nat)
      requires Inv(skip) && readPending
      requires 0 < length <= readSize && length <= |wire|
      modifies this`readPending, this`inp, this`scan, this`eof, this`longMsg, this`messageCount, this`handling, this`handlerEvents,
               this`assertBroken, this`wire, this`received, buf
      ensures Inv(skip) && !readPending
      ensures received == old(received) + old(wire)[..length]
      ensures wire == old(wire)[length..]
      ensures inp == Wrapped(buf.Length, old(inp) + length) && Unread() == old(Unread()) + old(wire)[..length]
      ensures !old(eof) ==> eof == HasEnd(Decode(old(scan), old(wire)[..length]))
      ensures handling == (if old(handling).Idle? && messageCount > 0 then Triggered else old(handling))
      ensures assertBroken ==
              (old(assertBroken) || (old(longMsg) && EndsBeforeEom(Decode(old(scan), old(wire)[..length]))))
    {
      hide After, Decode, EomCount, Counters.AccountAll, HasEnd, EndsBeforeEom, Plain, Agree, Ring, Free;
      InvFacts(skip);
      readPending := false;
      ghost var chunk, unread, before, at := wire[..length], Unread(), buf[..], inp;
      ghost var s0, b0 := scan, Book();
      Fill(buf, inp, wire[..length]);
      wire := wire[length..];
      received := received + chunk;
      Scan(length);
      RingFill(before, buf[..], cur, at, chunk);
      assert Unread() == unread + chunk;
      assert Unread()[..skip] == unread[..skip];
      assert Unread()[skip..] == unread[skip..] + chunk;
      AgreeReceive(b0, s0, read, old(received), delivered, unread[..skip], unread[skip..], chunk);
      b0.AccountSummary(Decode(s0, chunk));
      b0.AccountBroken(Decode(s0, chunk));
    }

    /** The buffer is full: replace it by one of twice the size, unwrapping the unread bytes. */
    method Grow()
      requires RingOk() && cur < buf.Length && !readPending
      requires |Unread()| == buf.Length - 1
      modifies this`buf, this`inp, this`cur, this`end
      ensures RingOk() && fresh(buf)
      ensures Unread() == old(Unread())
      ensures end - cur == old(end) - old(cur)
      ensures cur == 0 && buf.Length == 2 * old(buf.Length)
    {
      hide Ring, Free;
      FreeZero(buf[..], cur, inp);
      var scnt := end - cur;
      var tmp := Rotated(buf, cur);
      RingUnwrap(buf[..], cur, inp, tmp[..]);
      inp := buf.Length - 1;
      buf := tmp;
      cur := 0;
      end := scnt;
    }

    method ReadEof(ghost skip: nat)
      requires Inv(skip) && readPending
      modifies this`readPending, this`eof, this`messageCount, this`handling, this`handlerEvents
      ensures Inv(skip) && eof
      ensures old(handling) != Idle ==> handling == old(handling)
      ensures !old(handling).Active? ==> !handling.Active?
    {
      hide After, Decode, EomCount, EndsBeforeEom, Plain, Agree, Ring, Free;
      readPending := false;
      AgreeEof(Book(), scan, read, received, delivered, Unread()[..skip], Unread()[skip..]);
      EndOfFile();
    }

    // ibuf_read_done, called by tcp_channel_read_done; `length` is 0 on end of file or error
    method ReadDone(length: nat, ghost skip: nat)
      requires Inv(skip) && readPending && length <= readSize && length <= |wire|
      requires cur == buf.Length ==> end == cur
      modifies this, buf
      ensures Inv(skip)
      ensures buf == old(buf) || fresh(buf)
      ensures received == old(received) + old(wire)[..length] && wire == old(wire)[length..]
      ensures delivered == old(delivered) && read == old(read)
      ensures length == 0 ==> eof
      ensures end - cur == old(end) - old(cur)
      ensures old(cur) < old(buf.Length) ==> cur < buf.Length
      ensures old(cur) <= old(end) <= old(buf.Length) ==> end <= buf.Length
      ensures old(handling) != Idle ==> handling == old(handling)
      ensures handling.Idle? && !eof ==> readPending
      ensures assertBroken ==
              (old(assertBroken) || (old(longMsg) && EndsBeforeEom(Decode(old(scan), old(wire)[..length]))))
      ensures length > 0 && !old(eof) ==> eof == HasEnd(Decode(old(scan), old(wire)[..length]))
      ensures length > 0 && !inputQueue && old(cur) < old(buf.Length) ==>
                buf == old(buf) && cur == old(cur) && inp == Wrapped(buf.Length, old(inp) + length)
      ensures old(RingOk()) && RingOk() && Unread() == old(Unread()) + old(wire)[..length]
      ensures length > 0 && !eof ==> readPending || |Unread()| == buf.Length - 1
      ensures length > 0 && readPending ==> readSize == Free(buf.Length, cur, inp)
      ensures !old(handling).Active? ==> !handling.Active?
    {
      hide After, Decode, EndsBeforeEom, Inv;
      if length == 0 {
        EmptyChunk(scan, wire[..0]);
        InvBounds(skip);
        assert Unread() + wire[..0] == Unread();
        ReadEof(skip);
        InvBounds(skip);
        return;
      }
      DataDone(length, skip);
    }

    /** Some bytes have been read. */
    method DataDone(length: nat, ghost skip: nat)
      requires Inv(skip) && readPending && 0 < length <= readSize && length <= |wire|
      requires cur == buf.Length ==> end == cur
      modifies this, buf
      ensures Inv(skip)
      ensures buf == old(buf) || fresh(buf)
      ensures received == old(received) + old(wire)[..length] && wire == old(wire)[length..]
      ensures delivered == old(delivered) && read == old(read)
      ensures end - cur == old(end) - old(cur)
      ensures old(cur) < old(buf.Length) ==> cur < buf.Length
      ensures old(cur) <= old(end) <= old(buf.Length) ==> end <= buf.Length
      ensures old(handling) != Idle ==> handling == old(handling)
      ensures handling.Idle? && !eof ==> readPending
      ensures assertBroken ==
              (old(assertBroken) || (old(longMsg) && EndsBeforeEom(Decode(old(scan), old(wire)[..length]))))
      ensures !old(eof) ==> eof == HasEnd(Decode(old(scan), old(wire)[..length]))
      ensures !inputQueue && old(cur) < old(buf.Length) ==> buf == old(buf) && cur == old(cur) && inp == Wrapped(buf.Length, old(inp) + length)
      ensures old(RingOk()) && RingOk() && Unread() == old(Unread()) + old(wire)[..length]
      ensures !eof ==> readPending || |Unread()| == buf.Length - 1
      ensures readPending ==> readSize == Free(buf.Length, cur, inp)
      ensures !old(handling).Active? ==> !handling.Active?
    {
      hide After, Decode, EndsBeforeEom, HasEnd, Inv, Ring, Free, Wrapped;
      InvBounds(skip);
      Receive(length, skip);
      Settle(skip);
    }

    /** After the scan: make room, and ask for more input or start a long message. */
    method Settle(ghost skip: nat)
      requires Inv(skip) && !readPending
      requires cur == buf.Length ==> end == cur
      modifies this`buf, this`inp, this`cur, this`end, this`readPending, this`readPos, this`readSize,
               this`longMsg, this`messageCount, this`handling, this`handlerEvents
      ensures Inv(skip) && (buf == old(buf) || fresh(buf))
      ensures end - cur == old(end) - old(cur)
      ensures old(cur) < old(buf.Length) ==> cur < buf.Length
      ensures old(cur) <= old(end) <= old(buf.Length) ==> end <= buf.Length
      ensures old(handling) != Idle ==> handling == old(handling)
      ensures handling.Idle? && !eof ==> readPending
      ensures !inputQueue && old(cur) < old(buf.Length) ==> buf == old(buf) && cur == old(cur) && inp == old(inp)
      ensures old(RingOk()) && RingOk() && Unread() == old(Unread())
      ensures !eof ==> readPending || |Unread()| == buf.Length - 1
      ensures readPending ==> readSize == Free(buf.Length, cur, inp)
      ensures !old(handling).Active? ==> !handling.Active?
    {
      hide Inv, Ring, Free;
      GrowIfFull(skip);
      Resume(skip);
      InvBounds(skip);
    }

    method GrowIfFull(ghost skip: nat)
      requires Inv(skip) && !readPending
      requires cur == buf.Length ==> end == cur
      modifies this`buf, this`inp, this`cur, this`end
      ensures Inv(skip) && old(RingOk()) && RingOk() && Unread() == old(Unread())
      ensures var full := inputQueue && !eof && |old(Unread())| == old(buf.Length) - 1 && old(buf.Length) < 0x1000000;
              if full then fresh(buf) && buf.Length == 2 * old(buf.Length) else buf == old(buf)
      ensures end - cur == old(end) - old(cur)
      ensures old(cur) < old(buf.Length) ==> cur < buf.Length
      ensures cur == buf.Length ==> end == cur
      ensures !inputQueue ==> cur == old(cur) && inp == old(inp)
      ensures old(cur) <= old(end) <= old(buf.Length) ==> end <= buf.Length
    {
      hide Agree, RingOk, Unread;
      InvBounds(skip);
      if inputQueue && !eof {
        var free := FreeSize();
        if free == 0 && buf.Length < 0x1000000 {
          Grow();
        }
      }
    }

    /** Ask for more input, or start handling a message that fills the buffer before its end has arrived. */
    method Resume(ghost skip: nat)
      requires Inv(skip) && !readPending
      requires cur == buf.Length ==> end == cur
      modifies this`cur, this`end, this`readPending, this`readPos, this`readSize,
               this`longMsg, this`messageCount, this`handling, this`handlerEvents
      ensures Inv(skip)
      ensures end - cur == old(end) - old(cur)
      ensures Unread() == old(Unread()) && (!eof ==> readPending || |Unread()| == buf.Length - 1)
      ensures readPending ==> readSize == Free(buf.Length, cur, inp)
      ensures old(cur) < buf.Length ==> cur == old(cur)
      ensures old(end) <= buf.Length ==> end <= buf.Length
      ensures old(handling) != Idle ==> handling == old(handling)
      ensures handling.Idle? && !eof ==> readPending
      ensures !old(handling).Active? ==> !handling.Active?
    {
      hide Agree, RingOk, Unread;
      InvFacts(skip);
      InvBounds(skip);
      var free := FreeSize();
      if free > 0 {
        TriggerRead();
      } else if messageCount == 0 {
        StartLong(skip);
      }
    }

    method StartLong(ghost skip: nat)
      requires Inv(skip) && messageCount == 0
      modifies this`longMsg, this`messageCount, this`handling, this`handlerEvents
      ensures Inv(skip) && old(RingOk()) && Unread() == old(Unread())
      ensures handling == if old(handling).Idle? then Triggered else old(handling)
    {
      hide Agree, Ring, Free;
      AgreeLong(Book(), scan, read, received, delivered, Unread()[..skip], Unread()[skip..]);
      longMsg := true;
      NewMessage();
    }

    lemma InvBounds(skip: nat)
      requires Inv(skip)
      ensures RingOk() && 2 <= buf.Length && cur <= buf.Length && inp < buf.Length
    {
    }

    /** The state of the reader's loop: everything before position `out` has been decoded and nothing
        beyond what has been handed out has produced a token. */
    ghost predicate Reading(out: nat)
      reads this, buf
    {
      && RingOk()
      && received + wire == stream
      && (eof ==> !readPending)
      && out <= buf.Length && Between(buf.Length, cur, out, inp)
      && Agree(Book(), scan, read, received, delivered, [], Ring(buf[..], out, inp))
    }

    lemma StartReading()
      requires Valid() && handling.Active? && cur == end
      ensures Reading(cur)
    {
      assert Unread()[..0] == [] && Unread()[0..] == Unread();
    }

    lemma WrapReading(out: nat)
      requires Reading(out) && out == buf.Length
      ensures Reading(0) && Left(0) == Left(out)
    {
      assert Ring(buf[..], out, inp) == Ring(buf[..], 0, inp);
    }

    /** Before the reader waits there is a read it can wait for. */
    method AskForMore()
      requires RingOk() && cur == inp && !eof
      modifies this`cur, this`end, this`readPending, this`readPos, this`readSize
      ensures readPending && RingOk() && Unread() == [] && end - cur == old(end) - old(cur) && cur <= buf.Length
      ensures old(cur) < buf.Length ==> cur == old(cur)
      ensures end == old(end) || cur == end == 0
    {
      FreeZero(buf[..], cur, inp);
      TriggerRead();
    }

    /** No data is left and the message is not complete: wait until the pending read is done. */
    method WaitRead()
      requires Reading(inp) && handling.Active? && cur == inp && !eof
      modifies this, buf
      ensures Reading(cur) && handling.Active? && cur < buf.Length
      ensures buf == old(buf) || fresh(buf)
      ensures old(received) <= received && delivered == old(delivered)
      ensures old(eof) ==> eof
      ensures |wire| < |old(wire)| || (wire == old(wire) && eof)
      ensures old(longMsg) && old(messageCount) == 1
    {
      OnlyLong(inp);
      hide After, Decode, EomCount, Plain, Agree, EndsBeforeEom;
      AskForMore();
      var length: nat :| length <= readSize && length <= |wire|;
      assert Unread() == [] == Ring(buf[..], inp, inp);
      assert Unread()[..0] == [] && Unread()[0..] == [];
      ReadDone(length, 0);
      assert Unread()[..0] == [] && Unread()[0..] == Unread();
    }

    /** A reader without data is inside a long message, and no other message is counted. */
    lemma OnlyLong(out: nat)
      requires Reading(out) && out == inp && !eof && handling.Active?
      ensures longMsg && messageCount == 1
    {
      assert Ring(buf[..], inp, inp) == [];
    }

    /** Pass over a byte that is part of the framing. */
    method PassOver(out: nat)
      requires Reading(out) && out < buf.Length && out != inp
      requires Next(read, buf[out]).1 == []
      modifies this`read
      ensures Reading(out + 1)
    {
      hide After, Decode, EomCount, Plain, Agree, Free, Ring, Between;
      var ch := buf[out];
      RingAdvance(buf[..], out, inp);
      BetweenNext(buf.Length, cur, out, inp);
      AgreeSilent(Book(), scan, read, received, delivered, ch, Ring(buf[..], out + 1, inp));
      if read.sizeMode > 0 {
        read := read.(dataSize := read.dataSize + (ch % 128) as nat * Pow128(read.sizeMode - 1), sizeMode := read.sizeMode + 1);
        if ch < 128 { read := read.(sizeMode := 0); }
      } else if read.esc {
        read := Framing(false, 1, 0);
      } else {
        read := read.(esc := true);
      }
    }

    /** Reuse freed space: ibuf_trigger_read at the end of ibuf_get_more. */
    method Refill()
      requires RingOk() && cur <= end <= buf.Length && Inv(end - cur)
      requires handling.Idle? && !eof ==> |Unread()| < buf.Length - 1
      modifies this`cur, this`end, this`readPending, this`readPos, this`readSize
      ensures Valid()
      ensures Unread() == old(Unread()) && end - cur == old(end) - old(cur)
      ensures old(cur) < buf.Length ==> cur == old(cur)
      ensures !eof ==> readPending || |Unread()| == buf.Length - 1
    {
      hide Agree, Ring, Free;
      TriggerRead();
    }

    /** Set the stream's window to a run of bytes that stand for themselves. */
    method OpenRun(out: nat, stop: nat, after: Framing)
      requires Reading(out) && handling.Active? && out < stop <= buf.Length && out != inp
      requires out < inp ==> stop <= inp
      requires Decode(read, buf[..][out..stop]) == Plain(buf[..][out..stop])
      requires after == After(read, buf[..][out..stop])
      modifies this`read, this`cur, this`end
      ensures Valid() && cur == out && end == stop
    {
      hide After, Decode, EomCount, Plain, Agree;
      ghost var run, rest := buf[..][out..stop], Ring(buf[..], stop, inp);
      RingSplit(buf[..], out, stop, inp);
      AgreeRun(Book(), scan, read, received, delivered, run, rest);
      FreeMonotone(buf.Length, cur, out, inp);
      read := after;
      cur := out;
      end := stop;
      assert Unread() == run + rest;
      assert Unread()[..end - cur] == run && Unread()[end - cur..] == rest;
    }

    /** Hand out one byte of the window: the fast path of read_stream. */
    method NextPlain() returns (t: Token)
      requires Valid() && handling.Active? && cur < end
      modifies this`cur, this`delivered
      ensures Valid() && cur == old(cur) + 1
      ensures t == old(Pending())[0] && delivered == old(delivered) + [t]
    {
      hide After, Decode, EomCount, Agree, Plain, Free, Ring;
      ghost var unread, skip := Unread(), end - cur;
      ghost var plain, rest := unread[1..skip], unread[skip..];
      InWindow();
      RingAdvance(buf[..], cur, inp);
      FirstPlain(unread, skip, Decode(read, rest));
      AgreeDeliver(Book(), scan, read, received, delivered, buf[cur], plain, rest);
      FreeMonotone(buf.Length, cur, cur + 1, inp);
      t := Data(buf[cur]);
      cur := cur + 1;
      delivered := delivered + [t];
      assert Unread() == unread[1..];
    }

    lemma InWindow()
      requires Valid() && cur < end
      ensures cur < buf.Length && cur != inp
    {
      hide Agree;
      assert |Unread()| > 0;
    }

    static lemma FirstPlain(unread: seq<byte>, skip: nat, ts: seq<Token>)
      requires 0 < skip <= |unread|
      ensures unread[..skip] == [unread[0]] + unread[1..skip]
      ensures unread[1..][..skip - 1] == unread[1..skip] && unread[1..][skip - 1..] == unread[skip..]
      ensures (Plain(unread[..skip]) + ts)[0] == Data(unread[0])
    {
    }

    /** Point both ends of the stream's window at `out`. */
    method CloseWindow(out: nat)
      requires Reading(out)
      modifies this`cur, this`end
      ensures RingOk() && cur == end == out && Inv(0) && Unread() == Ring(buf[..], out, inp)
    {
      hide After, Decode, EomCount, Plain, Agree;
      FreeMonotone(buf.Length, cur, out, inp);
      cur := out;
      end := out;
      assert Unread()[..0] == [] && Unread()[0..] == Unread();
    }

    /** The token of an escape sequence leaves the ring. */
    method Consume(out: nat, t: Token)
      requires Reading(out) && handling.Active? && out < buf.Length && out != inp
      requires read.esc && Next(read, buf[out]).1 == [t]
      modifies this`read, this`messageCount, this`handling, this`handlerEvents, this`delivered
      ensures Reading(out + 1) && delivered == old(delivered) + [t]
      ensures Book() == old(Book()).Deliver(t)
      ensures |Ring(buf[..], out + 1, inp)| < buf.Length - 1
    {
      hide After, Decode, EomCount, Plain, Agree, Free, Ring, Between;
      RingAdvance(buf[..], out, inp);
      BetweenNext(buf.Length, cur, out, inp);
      FreeZero(buf[..], out, inp);
      AgreeToken(Book(), scan, read, received, delivered, buf[out], t, Ring(buf[..], out + 1, inp));
      ReadingFacts(out);
      CountOut(t);
      read := read.(esc := false);
      delivered := delivered + [t];
    }

    method CountOut(t: Token)
      requires messageCount > 0 && handlerEvents == 0
      modifies this`messageCount, this`handling, this`handlerEvents
      ensures Book() == old(Book()).Deliver(t)
    {
      if t == EOM {
        messageCount := messageCount - 1;
        handling := Idle;
        if messageCount > 0 {
          TriggerMessage();
        }
      }
    }

    lemma ReadingFacts(out: nat)
      requires Reading(out) && handling.Active?
      ensures messageCount > 0 && Sane(read) && handlerEvents == 0
    {
    }

    /** How many bytes the reader has still to decode. */
    ghost function Left(out: nat): nat
      reads this, buf
    {
      if out <= buf.Length && inp <= buf.Length then |Ring(buf[..], out, inp)| else 0
    }

    /** One turn of the reader's loop that yields no token. */
    method SkipStep(from: nat) returns (out: nat)
      requires Reading(from) && handling.Active? && from < buf.Length
      requires if from == inp then !eof else Next(read, buf[from]).1 == []
      modifies this, buf
      ensures buf == old(buf) || fresh(buf)
      ensures Reading(out) && handling.Active?
      ensures old(received) <= received && delivered == old(delivered)
      ensures old(eof) ==> eof
      ensures received == old(received) && eof == old(eof) ==> Book() == old(Book())
      ensures |wire| < |old(wire)| || (wire == old(wire) && ((eof && !old(eof)) || (eof == old(eof) && Left(out) < old(Left(from)))))
    {
      hide After, Decode, EomCount, Plain, Agree, Ring, Between;
      if from == inp {
        // No data available
        MoveTo(from);
        WaitRead();
        out := cur;
      } else {
        RingAdvance(buf[..], from, inp);
        PassOver(from);
        out := from + 1;
      }
    }

    /** The part of the reader's loop that yields no token: find the next position whose byte does.
        `ended` if the stream has ended and everything in it has been handed out. */
    method SkipFraming() returns (out: nat, ended: bool)
      requires Valid() && handling.Active? && cur == end
      modifies this, buf
      ensures buf == old(buf) || fresh(buf)
      ensures old(received) <= received && delivered == old(delivered)
      ensures received == old(received) && eof == old(eof) ==> Book() == old(Book())
      ensures ended ==> eof && delivered == Decode(NEUTRAL, received)
      ensures !ended ==> Reading(out) && handling.Active? && out < buf.Length && out != inp
      ensures !ended ==> Next(read, buf[out]).1 != []
      ensures old(AtPlain()) ==> !ended && out == old(cur) && unchanged(this) && unchanged(buf)
    {
      hide Reading, Valid, After, Decode, Next, Left;
      StartReading();
      PlainYields();
      out := cur;
      while true
        invariant buf == old(buf) || fresh(buf)
        invariant Reading(out) && handling.Active?
        invariant old(received) <= received && delivered == old(delivered)
        invariant old(eof) ==> eof
        invariant received == old(received) && eof == old(eof) ==> Book() == old(Book())
        invariant old(AtPlain()) ==> out == old(cur) && unchanged(this) && unchanged(buf)
        decreases |wire|, !eof, Left(out), out == buf.Length
      {
        ReadingBounds(out);
        if out == buf.Length {
          WrapReading(out);
          out := 0;
          continue;
        }
        if out == inp && eof {
          AtEnd();
          cur := out;
          return out, true;
        }
        if out != inp && Next(read, buf[out]).1 != [] {
          return out, false;
        }
        out := SkipStep(out);
      }
    }

    lemma PlainYields()
      ensures AtPlain() ==> Next(read, buf[cur]).1 != []
    {
    }

    lemma ReadingBounds(out: nat)
      requires Reading(out)
      ensures out <= buf.Length && inp < buf.Length
    {
    }

    method MoveTo(out: nat)
      requires Reading(out)
      modifies this`cur
      ensures Reading(out) && cur == out
    {
      hide After, Decode, EomCount, Plain, Agree;
      FreeMonotone(buf.Length, cur, out, inp);
      cur := out;
    }

    lemma AtEnd()
      requires Reading(inp)
      ensures delivered == Decode(NEUTRAL, received)
    {
    }

    /** The next byte stands for itself. */
    ghost predicate AtPlain()
      reads this, buf
    {
      cur < buf.Length && inp != cur && read == NEUTRAL && buf[cur] != ESC
    }

    /** The bytes at `out` stand for themselves: find how far, and open the window on them. */
    method FindRun(out: nat)
      requires Reading(out) && handling.Active? && out < buf.Length && out != inp && !read.esc
      requires Next(read, buf[out]).1 != []
      modifies this`read, this`cur, this`end
      ensures Valid() && cur == out < end
      ensures old(read) == NEUTRAL ==> end == RunStop(buf[..], out, inp)
    {
      hide Reading, Valid, After, Decode, Plain;
      ReadingFacts(out);
      ReadingBounds(out);
      var max := if out < inp then inp else buf.Length;
      if read.dataSize > 0 {
        // Reading the bin data
        var stop := if max - out < read.dataSize then max else out + read.dataSize;
        DecodeBlock(read, buf[..][out..stop]);
        OpenRun(out, stop, read.(dataSize := read.dataSize - (stop - out)));
      } else {
        // Plain data
        var stop := out + 1;
        while stop != max && buf[stop] != ESC
          invariant out < stop <= max && RunStop(buf[..], out, inp) == RunStop(buf[..], stop - 1, inp)
          invariant ESC !in buf[..][out..stop]
        {
          assert buf[..][out..stop + 1] == buf[..][out..stop] + [buf[stop]];
          stop := stop + 1;
        }
        assert read == NEUTRAL;
        DecodePlain(buf[..][out..stop]);
        OpenRun(out, stop, read);
      }
    }

    lemma PendingRun()
      requires Valid() && cur < end
      ensures Pending() != [] && Pending()[0] == Data(buf[cur])
    {
    }

    lemma PendingToken(t: Token)
      requires Valid() && cur == end < buf.Length && cur != inp && Next(read, buf[cur]).1 == [t]
      ensures Pending() != [] && Pending()[0] == t
    {
      RingAdvance(buf[..], cur, inp);
      DecodeHead(read, buf[cur], Ring(buf[..], cur + 1, inp));
      assert Unread()[..0] == [] && Unread()[0..] == Unread();
    }

    method TakeRun(out: nat, peeking: bool) returns (t: Token)
      requires Reading(out) && handling.Active? && out < buf.Length && out != inp && !read.esc
      requires Next(read, buf[out]).1 != []
      modifies this`read, this`cur, this`end, this`delivered, this`readPending, this`readPos, this`readSize
      ensures Valid()
      ensures peeking ==> delivered == old(delivered) && Pending() != [] && Pending()[0] == t
      ensures !peeking ==> delivered == old(delivered) + [t] && t != EOM
      ensures !peeking && old(read) == NEUTRAL && out + 1 < buf.Length ==>
                cur == out + 1 && end == RunStop(buf[..], out, inp) && (!eof ==> readPending || |Unread()| == buf.Length - 1)
      ensures !eof ==> readPending || |Unread()| == buf.Length - 1
    {
      hide Reading, Agree, After, Decode, Next, Ring, Free;
      t := Data(buf[out]);
      FindRun(out);
      PendingRun();
      if !peeking {
        t := NextPlain();
      }
      Refill();
    }

    function EscapeToken(ch: byte): Token {
      if ch == 0 then Data(ESC) else if ch == 1 then EOM else if ch == 2 then EOS else Bad(ch)
    }

    method PeekEscape(out: nat, t: Token)
      requires Reading(out) && handling.Active? && out < buf.Length && out != inp
      requires Next(read, buf[out]).1 == [t]
      modifies this`cur, this`end, this`readPending, this`readPos, this`readSize
      ensures Valid() && Pending() != [] && Pending()[0] == t
      ensures !eof ==> readPending || |Unread()| == buf.Length - 1
    {
      hide Reading, Inv, RingOk, Unread, After, Decode, Plain, Next;
      ReadingBounds(out);
      CloseWindow(out);
      PendingToken(t);
      Refill();
    }

    method ReadEscape(out: nat, t: Token)
      requires Reading(out) && handling.Active? && out < buf.Length && out != inp && read.esc
      requires Next(read, buf[out]).1 == [t]
      modifies this`read, this`cur, this`end, this`messageCount, this`handling, this`handlerEvents, this`delivered,
               this`readPending, this`readPos, this`readSize
      ensures Valid() && delivered == old(delivered) + [t] && Book() == old(Book()).Deliver(t)
      ensures !eof ==> readPending || |Unread()| == buf.Length - 1
    {
      hide Reading, Inv, RingOk, Unread, After, Decode, Next;
      Consume(out, t);
      CloseWindow(out + 1);
      Refill();
    }

    method TakeEscape(out: nat, peeking: bool) returns (t: Token)
      requires Reading(out) && handling.Active? && out < buf.Length && out != inp && read.esc
      requires Next(read, buf[out]).1 != []
      modifies this`read, this`cur, this`end, this`messageCount, this`handling, this`handlerEvents, this`delivered,
               this`readPending, this`readPos, this`readSize
      ensures Valid()
      ensures peeking ==> delivered == old(delivered) && Pending() != [] && Pending()[0] == t && Book() == old(Book())
      ensures !peeking ==> delivered == old(delivered) + [t] && Book() == old(Book()).Deliver(t)
      ensures !eof ==> readPending || |Unread()| == buf.Length - 1
    {
      hide Reading, Valid;
      ReadingFacts(out);
      t := EscapeToken(buf[out]);
      if peeking {
        PeekEscape(out, t);
      } else {
        ReadEscape(out, t);
      }
    }

    // ibuf_get_more; `more` is false if the stream has ended and everything in it has been handed out
    method GetMore(peeking: bool) returns (t: Token, more: bool)
      requires Valid() && handling.Active? && cur == end
      modifies this, buf
      ensures buf == old(buf) || fresh(buf)
      ensures old(received) <= received
      ensures more ==> Valid()
      ensures more && peeking ==> delivered == old(delivered) && Pending() != [] && Pending()[0] == t
      ensures more && !peeking ==> delivered == old(delivered) + [t]
      ensures more ==> handling.Active? == (peeking || t != EOM)
      ensures more && received == old(received) && eof == old(eof) ==>
                Book() == if peeking then old(Book()) else old(Book()).Deliver(t)
      ensures !more ==> t == EOS && eof && delivered == old(delivered) == Decode(NEUTRAL, received)
      ensures !peeking && old(AtPlain()) && old(cur) + 1 < old(buf.Length) ==>
                && more && buf == old(buf) && unchanged(buf) && inp == old(inp) && cur == old(cur) + 1 && Book() == old(Book())
                && received == old(received) && wire == old(wire) && scan == old(scan)
                && end == RunStop(buf[..], old(cur), inp) && (!eof ==> readPending || |Unread()| == buf.Length - 1)
      ensures more && !eof ==> readPending || |Unread()| == buf.Length - 1
    {
      hide Reading, Valid, Agree, After, Decode, Next, Ring, Free;
      var out, ended := SkipFraming();
      if ended {
        return EOS, false;
      }
      more := true;
      if read.esc {
        t := TakeEscape(out, peeking);
      } else {
        t := TakeRun(out, peeking);
      }
    }

    // ibuf_init, and the first ibuf_trigger_read of start_channel
    constructor (size: nat, inputQueue: bool, stream: seq<byte>)
      requires size >= 2
      ensures Valid() && fresh(buf)
      ensures this.stream == stream && received == [] && delivered == []
      ensures !assertBroken && handling.Idle?
      ensures this.inputQueue == inputQueue && wire == stream && scan == read == NEUTRAL && !eof && !longMsg
      ensures buf.Length == size && cur == end == inp == 0 && Unread() == [] && readPending && readSize == size - 1
    {
      buf := new byte[size];
      inp, cur, end := 0, 0, 0;
      scan, read := NEUTRAL, NEUTRAL;
      eof, longMsg, messageCount, handling, handlerEvents := false, false, 0, Idle, 0;
      readPending, readPos, readSize := false, 0, 0;
      this.inputQueue := inputQueue;
      assertBroken := false;
      wire := stream;
      this.stream := stream;
      received, delivered := [], [];
      new;
      assert Unread() == [] && Plain([]) == [];
      TriggerRead();
    }

    // read_stream, with tcp_read_stream behind it
    method Read() returns (t: Token, more: bool)
      requires Valid() && handling.Active?
      modifies this, buf
      ensures buf == old(buf) || fresh(buf)
      ensures old(received) <= received
      ensures more ==> Valid() && delivered == old(delivered) + [t] && handling.Active? == (t != EOM)
      ensures more && received == old(received) && eof == old(eof) ==> Book() == old(Book()).Deliver(t)
      ensures old(Pending()) != [] ==> more && t == old(Pending())[0]
      ensures !more ==> t == EOS && eof && delivered == old(delivered) == Decode(NEUTRAL, received)
      ensures old(cur) == old(end) && old(AtPlain()) && old(cur) + 1 < old(buf.Length) ==>
                && more && buf == old(buf) && unchanged(buf) && inp == old(inp) && cur == old(cur) + 1 && Book() == old(Book())
                && received == old(received) && wire == old(wire) && scan == old(scan)
                && end == RunStop(buf[..], old(cur), inp) && (!eof ==> readPending || |Unread()| == buf.Length - 1)
      ensures more && old(cur) == old(end) && !eof ==> readPending || |Unread()| == buf.Length - 1
    {
      hide Reading, Agree, After, Decode, Next, Ring, Free;
      ghost var expected := Pending();
      Refinement();
      ghost var seen, decoded := received, Decode(NEUTRAL, received);
      if cur < end {
        t := NextPlain();
        more := true;
      } else {
        t, more := GetMore(false);
        DecodePrefix(NEUTRAL, seen, received);
        if more {
          Refinement();
          if expected != [] {
            assert (old(delivered) + expected)[|old(delivered)|] == expected[0];
            assert (old(delivered) + [t] + Pending())[|old(delivered)|] == t;
          }
        } else {
          assert |old(delivered) + expected| <= |old(delivered)|;
        }
      }
    }

    // peek_stream, with tcp_peek_stream behind it
    method Peek() returns (t: Token, more: bool)
      requires Valid() && handling.Active?
      modifies this, buf
      ensures buf == old(buf) || fresh(buf)
      ensures old(received) <= received
      ensures delivered == old(delivered)
      ensures more ==> Valid() && handling.Active? && Pending() != [] && t == Pending()[0]
      ensures more && received == old(received) && eof == old(eof) ==> Book() == old(Book())
      ensures !more ==> t == EOS && eof && delivered == Decode(NEUTRAL, received)
      ensures more && old(cur) == old(end) && !eof ==> readPending || |Unread()| == buf.Length - 1
    {
      hide Reading, Agree, After, Decode, Next, Ring, Free;
      if cur < end {
        PendingRun();
        t := Data(buf[cur]);
        more := true;
      } else {
        t, more := GetMore(true);
      }
    }

    /** Peeking announces exactly what the next read returns. */
    method PeekThenRead() returns (p: Token, t: Token, more: bool)
      requires Valid() && handling.Active?
      modifies this, buf
      ensures more ==> p == t && delivered == old(delivered) + [t]
    {
      hide Valid, Decode;
      var seen;
      p, seen := Peek();
      if seen {
        t, more := Read();
      } else {
        t, more := p, false;
      }
    }

    /** The dispatch of a handle_channel_msg event: ibuf_start_message. */
    method StartMessage() returns (started: bool)
      requires Valid() && handlerEvents > 0
      modifies this`handling, this`handlerEvents
      ensures Valid()
      ensures started <==> !eof
      ensures handling == if started then Active else Idle
      ensures handlerEvents == old(handlerEvents) - 1 && messageCount > 0
    {
      hide After, Decode, EomCount, Plain, Ring, Free, Agree;
      InvFacts(end - cur);
      AgreeStart(Book(), scan, read, received, delivered, Unread()[..end - cur], Unread()[end - cur..]);
      handlerEvents := handlerEvents - 1;
      assert messageCount != 0;
      if eof {
        handling := Idle;
        return false;
      }
      handling := Active;
      return true;
    }

    /** The completion of a socket read, dispatched as an event. */
    method OnRead(length: nat)
      requires Valid() && readPending && length <= readSize && length <= |wire|
      modifies this, buf
      ensures Valid() && (buf == old(buf) || fresh(buf))
      ensures received == old(received) + old(wire)[..length]
      ensures delivered == old(delivered)
      ensures assertBroken ==
              (old(assertBroken) || (old(longMsg) && EndsBeforeEom(Decode(old(scan), old(wire)[..length]))))
      ensures wire == old(wire)[length..] && read == old(read) && end - cur == old(end) - old(cur)
      ensures old(handling) != Idle ==> handling == old(handling)
      ensures length > 0 && !old(eof) ==> eof == HasEnd(Decode(old(scan), old(wire)[..length]))
      ensures length > 0 && !inputQueue && old(cur) < old(buf.Length) ==>
                buf == old(buf) && cur == old(cur) && inp == Wrapped(buf.Length, old(inp) + length)
      ensures Unread() == old(Unread()) + old(wire)[..length]
      ensures length > 0 && !eof ==> readPending || |Unread()| == buf.Length - 1
      ensures length > 0 && readPending ==> readSize == Free(buf.Length, cur, inp)
      ensures !old(handling).Active? ==> !handling.Active?
    {
      hide After, Decode, EndsBeforeEom, Agree, Ring, Free;
      ReadDone(length, end - cur);
    }

    /** What the invariant means to a client of the channel. */
    lemma Refinement()
      requires Valid()
      // The tokens handed out, continued by those still pending, are the decoding of the bytes received.
      ensures delivered + Pending() == Decode(NEUTRAL, received)
      ensures received <= stream && delivered <= Decode(NEUTRAL, stream)
      // The reader, run over the bytes it has not decoded yet, reaches the scanner's state.
      ensures After(read, Unread()[end - cur..]) == scan == After(NEUTRAL, received)
      // Every waiting message is counted once.
      ensures messageCount == EomCount(Pending()) + Flag(longMsg) + Flag(eof)
      ensures handling.Active? && !longMsg ==> EOM in Pending()
      ensures !eof && messageCount > 0 ==> handling.Active? || handlerEvents == 1
      ensures handlerEvents > 0 ==> handlerEvents == 1 && !handling.Active?
      // Input never stalls while the channel waits for a message.
      ensures !eof && messageCount == 0 ==> readPending
    {
      DecodePrefix(NEUTRAL, received, stream);
    }

    ghost function P(): Point
      reads this
    {
      Point(received, wire, delivered, if readPending then Some(readSize) else None, handlerEvents, handling.Active?, eof)
    }

    /** One action, skipped if it is not enabled; `more` turns false when the end of the stream is reported. */
    method Perform(a: Action) returns (more: bool)
      requires Valid()
      modifies this, buf
      ensures buf == old(buf) || fresh(buf)
      ensures more ==> Valid()
      ensures !more ==> eof && delivered == Decode(NEUTRAL, received)
      ensures Acts(old(P()), a, P(), more)
    {
      hide Valid, Decode;
      more := true;
      match a {
        case Arrive(length) =>
          if readPending && length <= readSize && length <= |wire| {
            OnRead(length);
          }
        case Dispatch =>
          if handlerEvents > 0 {
            var _ := StartMessage();
          }
        case ReadOne =>
          if handling.Active? {
            var _, m := Read();
            more := m;
          }
        case PeekOne =>
          if handling.Active? {
            var _, m := Peek();
            more := m;
          }
      }
    }

    /** Whatever the order of arrivals, dispatches, reads and peeks, and however the stream is cut
        into arrivals, what has been handed out is what the received bytes mean. */
    method Run(schedule: seq<Action>) returns (more: bool, ghost trace: seq<Point>)
      requires Valid()
      modifies this, buf
      ensures delivered <= Decode(NEUTRAL, received)
      ensures more ==> Valid()
      ensures !more ==> eof && delivered == Decode(NEUTRAL, received)
      // The run is made of the actions of the schedule, all of them unless the end of the stream is reported.
      ensures 0 < |trace| <= |schedule| + 1 && trace[0] == old(P()) && trace[|trace| - 1] == P()
      ensures more ==> |trace| == |schedule| + 1
      ensures forall i :: 0 <= i < |trace| - 1 ==> Acts(trace[i], schedule[i], trace[i + 1], more || i < |trace| - 2)
    {
      hide Valid, Decode, Acts;
      more, trace := true, [P()];
      var i := 0;
      while i < |schedule| && more
        invariant 0 <= i <= |schedule|
        invariant buf == old(buf) || fresh(buf)
        invariant more ==> Valid()
        invariant !more ==> eof && delivered == Decode(NEUTRAL, received)
        invariant |trace| == i + 1 && trace[0] == old(P()) && trace[i] == P()
        invariant forall j :: 0 <= j < i ==> Acts(trace[j], schedule[j], trace[j + 1], more || j < i - 1)
      {
        more := Perform(schedule[i]);
        trace := trace + [P()];
        i := i + 1;
      }
      if more {
        Refinement();
      }
    }
  }

  lemma AccountNothing(s: Framing, book: Counters, chunk: seq<byte>)
    requires chunk == []
    ensures After(s, chunk) == s && book.AccountAll(Decode(s, chunk)) == book
  {
  }

  lemma EmptyChunk(s: Framing, chunk: seq<byte>)
    requires chunk == []
    ensures Decode(s, chunk) == [] && !EndsBeforeEom(Decode(s, chunk))
  {
  }

  lemma AccountMore(s: Framing, book: Counters, all: seq<byte>, from: nat, mid: nat, to: nat)
    requires from <= mid <= to <= |all|
    ensures After(s, all[from..to]) == After(After(s, all[from..mid]), all[mid..to])
    ensures book.AccountAll(Decode(s, all[from..to]))
         == book.AccountAll(Decode(s, all[from..mid])).AccountAll(Decode(After(s, all[from..mid]), all[mid..to]))
  {
    assert all[from..to] == all[from..mid] + all[mid..to];
    DecodeConcat(s, all[from..mid], all[mid..to]);
    book.AccountConcat(Decode(s, all[from..mid]), Decode(After(s, all[from..mid]), all[mid..to]));
  }
}
