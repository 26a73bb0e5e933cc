/** The framing of a message stream: plain bytes, two-byte ESC sequences and
    length-prefixed binary blocks.  `Next` is the byte automaton that both the
    message scanner and the stream reader of the agent run; `Decode` is the
    meaning of a byte string: the tokens it carries.
 */
module Wire {

  newtype byte = b: int | 0 <= b < 256

  const ESC: byte := 3

  /** What a reader of the stream is handed.  `Bad` stands for an escape code
      above 3, which no writer produces. */
  datatype Token = Data(b: byte) | EOM | EOS | Bad(code: byte)

  /** The decoder's position inside a multi-byte construct. */
  datatype Framing = Framing(esc: bool, sizeMode: nat, dataSize: nat)

  const NEUTRAL := Framing(false, 0, 0)

  function Pow128(n: nat): (r: nat)
    ensures r > 0
  {
    if n == 0 then 1 else 128 * Pow128(n - 1)
  }

  /** One step of the automaton: the next state and the tokens emitted (none or one). */
  function Next(s: Framing, ch: byte): (r: (Framing, seq<Token>)) {
    if s.sizeMode > 0 then
      (Framing(s.esc, if ch < 128 then 0 else s.sizeMode + 1, s.dataSize + (ch % 128) as nat * Pow128(s.sizeMode - 1)), [])
    else if s.dataSize > 0 then
      (s.(dataSize := s.dataSize - 1), [Data(ch)])
    else if s.esc then
      if ch == 3 then (Framing(false, 1, 0), [])
      else (NEUTRAL, [if ch == 0 then Data(ESC) else if ch == 1 then EOM else if ch == 2 then EOS else Bad(ch)])
    else if ch == ESC then
      (Framing(true, 0, 0), [])
    else
      (s, [Data(ch)])
  }

  /** The decoder never waits for an escape code inside a binary block. */
  predicate Sane(s: Framing) {
    s.sizeMode > 0 || s.dataSize > 0 ==> !s.esc
  }

  function After(s: Framing, bytes: seq<byte>): (r: Framing)
    ensures Sane(s) ==> Sane(r)
    decreases |bytes|
  {
    if bytes == [] then s else After(Next(s, bytes[0]).0, bytes[1..])
  }

  function Decode(s: Framing, bytes: seq<byte>): seq<Token>
    decreases |bytes|
  {
    if bytes == [] then [] else Next(s, bytes[0]).1 + Decode(Next(s, bytes[0]).0, bytes[1..])
  }

  function Plain(bytes: seq<byte>): (r: seq<Token>)
    ensures |r| == |bytes|
    ensures forall i :: 0 <= i < |bytes| ==> r[i] == Data(bytes[i])
  {
    seq(|bytes|, i requires 0 <= i < |bytes| => Data(bytes[i]))
  }

  function EomCount(ts: seq<Token>): nat {
    multiset(ts)[EOM]
  }

  /** The tokens that make the receiver treat the stream as ended. */
  predicate IsEnd(t: Token) {
    t == EOS || t.Bad?
  }

  predicate HasEnd(ts: seq<Token>) {
    exists i :: 0 <= i < |ts| && IsEnd(ts[i])
  }

  /** The first end of message arrives after the stream has been marked as ended. */
  predicate EndsBeforeEom(ts: seq<Token>) {
    exists i :: 0 <= i < |ts| && IsEnd(ts[i]) && EOM !in ts[..i] && EOM in ts[i..]
  }

  lemma {:induction false} DecodeConcat(s: Framing, a: seq<byte>, b: seq<byte>)
    ensures After(s, a + b) == After(After(s, a), b)
    ensures Decode(s, a + b) == Decode(s, a) + Decode(After(s, a), b)
    decreases |a|
  {
    if a == [] {
      assert a + b == b;
    } else {
      assert (a + b)[1..] == a[1..] + b;
      DecodeConcat(Next(s, a[0]).0, a[1..], b);
    }
  }

  lemma DecodeOne(s: Framing, ch: byte)
    ensures After(s, [ch]) == Next(s, ch).0
    ensures Decode(s, [ch]) == Next(s, ch).1
  {
    assert [ch][1..] == [];
  }

  /** Appending one byte. */
  lemma DecodeSnoc(s: Framing, a: seq<byte>, ch: byte)
    ensures After(s, a + [ch]) == Next(After(s, a), ch).0
    ensures Decode(s, a + [ch]) == Decode(s, a) + Next(After(s, a), ch).1
  {
    DecodeConcat(s, a, [ch]);
    DecodeOne(After(s, a), ch);
  }

  /** The bytes on the wire: 3 introduces an escape sequence, whose code is 0 for the byte 3 itself, 1 for the end of a message
      and 2 for the end of the stream; every other byte stands for itself. */
  lemma WireBytes(b: byte)
    ensures b != 3 ==> Decode(NEUTRAL, [b]) == [Data(b)] && After(NEUTRAL, [b]) == NEUTRAL
    ensures Decode(NEUTRAL, [3]) == []
    ensures Decode(NEUTRAL, [3, 0]) == [Data(3)] && After(NEUTRAL, [3, 0]) == NEUTRAL
    ensures Decode(NEUTRAL, [3, 1]) == [EOM] && After(NEUTRAL, [3, 1]) == NEUTRAL
    ensures Decode(NEUTRAL, [3, 2]) == [EOS] && After(NEUTRAL, [3, 2]) == NEUTRAL
    ensures b > 3 ==> Decode(NEUTRAL, [3, b]) == [Bad(b)]
  {
    DecodeOne(NEUTRAL, b);
    DecodeOne(NEUTRAL, 3);
    TwoBytes(0);
    TwoBytes(1);
    TwoBytes(2);
    TwoBytes(b);
  }

  lemma TwoBytes(code: byte)
    ensures Decode(NEUTRAL, [3, code]) == Next(Next(NEUTRAL, 3).0, code).1
    ensures After(NEUTRAL, [3, code]) == Next(Next(NEUTRAL, 3).0, code).0
  {
    assert [3, code] == [3] + [code];
    DecodeSnoc(NEUTRAL, [3], code);
    DecodeOne(NEUTRAL, 3);
  }

  /** A stretch of a binary block decodes to itself, whatever bytes it holds. */
  lemma {:induction false} DecodeBlock(s: Framing, bytes: seq<byte>)
    requires s.sizeMode == 0 && |bytes| <= s.dataSize
    ensures Decode(s, bytes) == Plain(bytes)
    ensures After(s, bytes) == s.(dataSize := s.dataSize - |bytes|)
    decreases |bytes|
  {
    if bytes != [] {
      DecodeBlock(s.(dataSize := s.dataSize - 1), bytes[1..]);
      assert Plain(bytes) == [Data(bytes[0])] + Plain(bytes[1..]);
    }
  }

  /** Outside blocks, a stretch without ESC decodes to itself. */
  lemma {:induction false} DecodePlain(bytes: seq<byte>)
    requires ESC !in bytes
    ensures Decode(NEUTRAL, bytes) == Plain(bytes)
    ensures After(NEUTRAL, bytes) == NEUTRAL
  {
    if bytes != [] {
      DecodePlain(bytes[1..]);
      assert Plain(bytes) == [Data(bytes[0])] + Plain(bytes[1..]);
    }
  }

  lemma EomCountConcat(a: seq<Token>, b: seq<Token>)
    ensures EomCount(a + b) == EomCount(a) + EomCount(b)
  {
  }

  /** Decoding is monotone: more bytes only add tokens. */
  lemma DecodePrefix(s: Framing, a: seq<byte>, b: seq<byte>)
    requires a <= b
    ensures Decode(s, a) <= Decode(s, b)
  {
    assert b == a + b[|a|..];
    DecodeConcat(s, a, b[|a|..]);
  }

  /** Store `chunk` at position `at` of a buffer. */
  method Fill(buf: array<byte>, at: nat, chunk: seq<byte>)
    requires at + |chunk| <= buf.Length
    modifies buf
    ensures buf[..] == old(buf[..])[..at] + chunk + old(buf[..])[at + |chunk|..]
    ensures buf[..][at..at + |chunk|] == chunk
    ensures forall i :: 0 <= i < buf.Length && !(at <= i < at + |chunk|) ==> buf[..][i] == old(buf[..])[i]
  {
    forall i | 0 <= i < |chunk| { buf[at + i] := chunk[i]; }
  }
}
