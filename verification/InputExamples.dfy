/** A run of the input channel in which the assertion on long messages fails. */
module InputExamples {
  import opened Wire
  import opened InputRing

  const LETTER: byte := 65

  function Letters(n: nat): (s: seq<byte>)
    ensures |s| == n && forall k :: 0 <= k < n ==> s[k] == LETTER
  {
    seq(n, _ => LETTER)
  }

  /** What the peer sends after the beginning of its message: the end of the stream, and then the end of the message. */
  const ENDING: seq<byte> := [ESC, 2, ESC, 1]

  lemma LettersDecode(n: nat)
    ensures Decode(NEUTRAL, Letters(n)) == Plain(Letters(n)) && After(NEUTRAL, Letters(n)) == NEUTRAL
    ensures !HasEnd(Plain(Letters(n))) && EOM !in Plain(Letters(n))
  {
    DecodePlain(Letters(n));
  }

  /** An ESC after the letters yields no token yet. */
  lemma OneMore(n: nat)
    ensures var all := Letters(n) + [ESC];
            && Decode(NEUTRAL, all) == Plain(Letters(n)) && After(NEUTRAL, all) == Framing(true, 0, 0)
            && Decode(NEUTRAL, [ESC]) == [] && !HasEnd([]) && EOM !in Plain(Letters(n))
  {
    LettersDecode(n);
    DecodeSnoc(NEUTRAL, Letters(n), ESC);
    DecodeOne(NEUTRAL, ESC);
  }

  lemma EndingDecode()
    ensures EndsBeforeEom(Decode(Framing(true, 0, 0), [2, ESC, 1]))
  {
    var s, a: seq<byte>, b: seq<byte> := Framing(true, 0, 0), [2], [ESC, 1];
    assert a + b == [2, ESC, 1];
    DecodeConcat(s, a, b);
    DecodeOne(s, 2);
    assert b == [ESC] + [1];
    DecodeConcat(NEUTRAL, [ESC], [1]);
    DecodeOne(NEUTRAL, ESC);
    DecodeOne(s, 1);
    var ts := Decode(s, [2, ESC, 1]);
    assert ts == [EOS, EOM];
    assert IsEnd(ts[0]) && ts[0..][1] == EOM;
  }

  lemma LettersRun(buf: seq<byte>, out: nat, inp: nat)
    requires out < inp < |buf| && forall k :: out <= k < inp ==> buf[k] == LETTER
    ensures RunStop(buf, out, inp) == inp
    decreases inp - out
  {
    if out + 1 < inp { LettersRun(buf, out + 1, inp); }
  }

  /** The ring is full of the beginning of a message, which is announced as a long one. */
  method Filled(size: nat) returns (r: InputChannel)
    requires size >= 5
    ensures fresh(r) && fresh(r.buf) && r.Valid() && !r.inputQueue && !r.eof && !r.assertBroken && r.handlerEvents > 0
    ensures r.buf.Length == size && r.cur == r.end == 0 && r.inp == size - 1 && r.read == NEUTRAL
    ensures r.received == r.Unread() == Letters(size - 1) && r.wire == ENDING && r.delivered == [] && r.scan == NEUTRAL
  {
    var stream := Letters(size - 1) + ENDING;
    r := new InputChannel(size, false, stream);
    assert stream[..size - 1] == Letters(size - 1) && stream[size - 1..] == ENDING;
    LettersDecode(size - 1);
    hide InputChannel.Inv, Decode, HasEnd, EndsBeforeEom, Letters, Plain;
    r.OnRead(size - 1);
    assert [] + Letters(size - 1) == Letters(size - 1);
    FreeZero(r.buf[..], r.cur, r.inp);
    Announced(r);
  }

  lemma Announced(r: InputChannel)
    requires r.Valid() && !r.readPending && !r.eof && !r.handling.Active?
    ensures r.handlerEvents == 1 && r.scan == After(NEUTRAL, r.received)
  {
    r.Refinement();
  }

  /** The message is being handled: its first byte has been read and a read for the room of that byte is posted. */
  method Begun(size: nat) returns (r: InputChannel)
    requires size >= 5
    ensures fresh(r) && fresh(r.buf) && Underway(r, size) && r.cur == 1
  {
    hide InputChannel.Inv, InputChannel.RingOk, Decode, After, Letters, Plain, RunStop, Ring, Free;
    r := Filled(size);
    Letter(r);
    LettersRun(r.buf[..], 0, r.inp);
    var started := r.StartMessage();
    assert r.AtPlain();
    ghost var before := r.buf[..];
    var t, more := r.Read();
    assert r.buf[..] == before && r.end == r.inp;
    NotFull(before, 1, r.inp);
    assert r.Unread() == Ring(before, 1, r.inp);
  }

  lemma NotFull(buf: seq<byte>, cur: nat, inp: nat)
    requires 0 < cur <= inp < |buf|
    ensures |Ring(buf, cur, inp)| < |buf| - 1
  {
  }

  /** The state of the channel while the window is read. */
  ghost predicate Underway(r: InputChannel, size: nat)
    reads r, r.buf
  {
    && size >= 5 && r.Valid() && !r.inputQueue && !r.assertBroken && !r.eof && r.handling.Active? && r.readPending
    && r.buf.Length == size && 0 < r.cur && r.end == r.inp == size - 1
    && r.received == Letters(size - 1) && r.wire == ENDING && r.scan == NEUTRAL
  }

  method OneByte(r: InputChannel, size: nat)
    requires Underway(r, size) && r.cur < r.end
    modifies r
    ensures Underway(r, size) && r.cur == old(r.cur) + 1 && r.buf == old(r.buf)
  {
    hide InputChannel.Inv, Decode, After, Letters, Plain;
    var t := r.NextPlain();
  }

  /** Part of the message has been read, and the read that was posted then has brought in one more byte. */
  method PartRead(size: nat) returns (r: InputChannel)
    requires size >= 5
    ensures fresh(r) && fresh(r.buf) && r.Valid() && !r.assertBroken && !r.eof && r.longMsg
    ensures r.readPending && r.readSize == 3 && r.scan == Framing(true, 0, 0) && r.wire == [2, ESC, 1]
  {
    r := Begun(size);
    OneByte(r, size);
    OneByte(r, size);
    OneByte(r, size);
    Arrives(r, size);
  }

  method Arrives(r: InputChannel, size: nat)
    requires Underway(r, size) && r.cur == 4
    modifies r, r.buf
    ensures r.Valid() && !r.assertBroken && !r.eof && r.longMsg && r.buf == old(r.buf)
    ensures r.readPending && r.readSize == 3 && r.scan == Framing(true, 0, 0) && r.wire == [2, ESC, 1]
  {
    hide InputChannel.Inv, Decode, After, HasEnd, EndsBeforeEom, Letters, Plain, Ring;
    OneMore(size - 1);
    assert ENDING[..1] == [ESC] && ENDING[1..] == [2, ESC, 1];
    NothingEnds();
    r.OnRead(1);
    NotFullRound(r.buf[..], 4);
    InLongMessage(r, size);
  }

  lemma NotFullRound(buf: seq<byte>, cur: nat)
    requires 1 < cur < |buf|
    ensures |Ring(buf, cur, 0)| < |buf| - 1 && Free(|buf|, cur, 0) == cur - 1
  {
  }

  lemma NothingEnds()
    ensures !EndsBeforeEom([])
  {
  }

  lemma Letter(r: InputChannel)
    requires r.Valid() && r.cur == 0 && r.inp > 0 && r.Unread() == Letters(r.inp)
    ensures forall k :: 0 <= k < r.inp ==> r.buf[k] == LETTER
  {
    forall k | 0 <= k < r.inp ensures r.buf[k] == LETTER { assert r.Unread()[k] == r.buf[k]; }
  }

  lemma InTail(t: Token, a: seq<Token>, b: seq<Token>)
    ensures t in b ==> t in a + b
  {
  }

  lemma InLongMessage(r: InputChannel, size: nat)
    requires size > 0 && r.Valid() && r.handling.Active? && r.received == Letters(size - 1) + [ESC]
    ensures r.longMsg && r.scan == Framing(true, 0, 0)
  {
    OneMore(size - 1);
    r.Refinement();
    hide Decode, After, Plain, Letters;
    InTail(EOM, r.delivered, r.Pending());
  }

  /** For a ring of any size of at least five bytes: the peer ends the stream inside a message that fills the ring, and sends
      the end of the message after it. */
  method BrokenAssertion(size: nat) returns (r: InputChannel)
    requires size >= 5
    ensures fresh(r) && r.Valid() && r.assertBroken
  {
    r := PartRead(size);
    EndingDecode();
    hide InputChannel.Valid, Decode, EndsBeforeEom;
    assert [2, ESC, 1][..3] == [2, ESC, 1];
    r.OnRead(3);
  }
}
