/** The sending half of a TCP channel.  Tokens are written through several paths - single
    tokens, blocks, strings, direct copies into the buffer - and reach the wire as plain
    bytes, escape sequences or length-prefixed binary blocks whose header is filled in when
    the block is closed. */
module ChannelOutput {
  import opened Wrappers
  import opened Wire
  import opened JsonString

  /** Width of the length field of a binary block, for a buffer of the given size. */
  function LengthWidth(size: nat): nat {
    if size > 0x4000 then 3 else 2
  }

  /** The length field of a binary block, least significant seven bits first. */
  function LengthField(len: nat, width: nat): (r: seq<byte>)
    requires width == 2 || width == 3
    ensures |r| == width
  {
    if width == 3 then
      [(len % 128 + 128) as byte, (len / 128 % 128 + 128) as byte, (len / 0x4000 % 256) as byte]
    else
      [(len % 128 + 128) as byte, (len / 128 % 256) as byte]
  }

  predicate FieldFits(len: nat, width: nat) {
    (width == 2 && len < 0x4000) || (width == 3 && len < 0x20_0000)
  }

  /** A binary block decodes to its contents, whatever bytes they are. */
  lemma DecodeBinaryBlock(data: seq<byte>, width: nat)
    requires data != [] && FieldFits(|data|, width)
    ensures Decode(NEUTRAL, [ESC, 3] + LengthField(|data|, width) + data) == Plain(data)
    ensures After(NEUTRAL, [ESC, 3] + LengthField(|data|, width) + data) == NEUTRAL
  {
    var head := [ESC, 3] + LengthField(|data|, width);
    DecodeHeader(|data|, width);
    DecodeConcat(NEUTRAL, head, data);
    DecodeBlock(Framing(false, 0, |data|), data);
  }

  /** The same with the bytes written out: 3, 3 and the number of bytes in groups of seven bits, the lowest first. */
  lemma BlockOnWire(data: seq<byte>)
    requires 0 < |data| < 0x20_0000
    ensures |data| < 0x4000 ==> Decode(NEUTRAL, [3, 3, (|data| % 128 + 128) as byte, (|data| / 128) as byte] + data) == Plain(data)
    ensures Decode(NEUTRAL, [3, 3, (|data| % 128 + 128) as byte, (|data| / 128 % 128 + 128) as byte, (|data| / 0x4000) as byte] + data)
            == Plain(data)
  {
    hide Decode, Plain, LengthField;
    HeaderIs(|data|);
    DecodeBinaryBlock(data, 3);
    if |data| < 0x4000 { DecodeBinaryBlock(data, 2); }
  }

  lemma HeaderIs(n: nat)
    requires n < 0x20_0000
    ensures [ESC, 3] + LengthField(n, 3) == [3, 3, (n % 128 + 128) as byte, (n / 128 % 128 + 128) as byte, (n / 0x4000) as byte]
    ensures n < 0x4000 ==> [ESC, 3] + LengthField(n, 2) == [3, 3, (n % 128 + 128) as byte, (n / 128) as byte]
  {
    FieldIs(n);
  }

  lemma FieldIs(n: nat)
    requires n < 0x20_0000
    ensures LengthField(n, 3) == [(n % 128 + 128) as byte, (n / 128 % 128 + 128) as byte, (n / 0x4000) as byte]
    ensures n < 0x4000 ==> LengthField(n, 2) == [(n % 128 + 128) as byte, (n / 128) as byte]
  {
  }

  lemma DecodeHeader(len: nat, width: nat)
    requires FieldFits(len, width)
    ensures Decode(NEUTRAL, [ESC, 3] + LengthField(len, width)) == []
    ensures After(NEUTRAL, [ESC, 3] + LengthField(len, width)) == Framing(false, 0, len)
  {
    hide After, Decode, LengthField;
    var f := LengthField(len, width);
    HeaderStart();
    HeaderByte([ESC, 3], Framing(false, 1, 0), f[0]);
    var head := [ESC, 3] + [f[0]];
    FieldValue(len, width);
    HeaderByte(head, Framing(false, 2, len % 128), f[1]);
    if width == 2 {
      assert [ESC, 3] + f == head + [f[1]];
    } else {
      HeaderByte(head + [f[1]], Framing(false, 3, len % 0x4000), f[2]);
      assert [ESC, 3] + f == head + [f[1]] + [f[2]];
    }
  }

  lemma HeaderStart()
    ensures Decode(NEUTRAL, [ESC, 3]) == [] && After(NEUTRAL, [ESC, 3]) == Framing(false, 1, 0)
  {
    DecodeSnoc(NEUTRAL, [ESC], 3);
    assert [ESC] + [3] == [ESC, 3];
  }

  lemma HeaderByte(head: seq<byte>, s: Framing, b: byte)
    requires Decode(NEUTRAL, head) == [] && After(NEUTRAL, head) == s && s.sizeMode > 0
    ensures Decode(NEUTRAL, head + [b]) == [] && After(NEUTRAL, head + [b]) == Next(s, b).0
  {
    hide After, Decode;
    DecodeSnoc(NEUTRAL, head, b);
  }

  lemma FieldValue(len: nat, width: nat)
    requires FieldFits(len, width)
    ensures var f := LengthField(len, width);
            && Next(Framing(false, 1, 0), f[0]).0 == Framing(false, 2, len % 128)
            && (width == 2 ==> Next(Framing(false, 2, len % 128), f[1]).0 == Framing(false, 0, len))
            && (width == 3 ==>
                  && Next(Framing(false, 2, len % 128), f[1]).0 == Framing(false, 3, len % 0x4000)
                  && Next(Framing(false, 3, len % 0x4000), f[2]).0 == Framing(false, 0, len))
  {
    var f := LengthField(len, width);
    SevenBits(len);
    NextSize(1, 0, f[0], len % 128);
    if width == 2 {
      NextSize(2, len % 128, f[1], len / 128);
    } else {
      NextSize(2, len % 128, f[1], len / 128 % 128);
      NextSize(3, len % 0x4000, f[2], len / 0x4000);
    }
  }

  /** One byte of a length field, whose low seven bits are `v`. */
  lemma NextSize(mode: nat, size: nat, b: byte, v: nat)
    requires 1 <= mode <= 3 && v < 128 && (b as int == v || b as int == v + 128)
    ensures Next(Framing(false, mode, size), b).0
         == Framing(false, if b < 128 then 0 else mode + 1, size + v * (if mode == 1 then 1 else if mode == 2 then 128 else 0x4000))
  {
    assert Pow128(0) == 1 && Pow128(1) == 128 * Pow128(0) && Pow128(2) == 128 * Pow128(1);
    assert (b % 128) as nat == v;
  }

  lemma SevenBits(len: nat)
    ensures len == len % 128 + len / 128 * 128
    ensures len / 128 / 128 == len / 0x4000
    ensures len % 0x4000 == len % 128 + len / 128 % 128 * 128
    ensures len == len % 0x4000 + len / 0x4000 * 0x4000
  {
    var a, b := len / 128, len / 128 / 128;
    assert len == b * 0x4000 + (a % 128 * 128 + len % 128);
  }

  /** `head` is a complete encoding of the tokens in `written` before the contents `data`
      of a block that is still open. */
  ghost predicate Encodes(head: seq<byte>, data: seq<byte>, written: seq<Token>) {
    && After(NEUTRAL, head) == NEUTRAL
    && written == Decode(NEUTRAL, head) + Plain(data)
  }

  lemma EncodesPlain(head: seq<byte>, bytes: seq<byte>, written: seq<Token>)
    requires Encodes(head, [], written) && ESC !in bytes
    ensures Encodes(head + bytes, [], written + Plain(bytes))
  {
    DecodeConcat(NEUTRAL, head, bytes);
    DecodePlain(bytes);
    hide After, Decode;
    assert Plain([]) == [];
  }

  lemma EncodesInBlock(head: seq<byte>, data: seq<byte>, bytes: seq<byte>, written: seq<Token>)
    requires Encodes(head, data, written)
    ensures Encodes(head, data + bytes, written + Plain(bytes))
  {
    hide After, Decode;
    assert Plain(data + bytes) == Plain(data) + Plain(bytes);
  }

  lemma EncodesClosed(head: seq<byte>, data: seq<byte>, width: nat, written: seq<Token>)
    requires Encodes(head, data, written) && data != [] && FieldFits(|data|, width)
    ensures Encodes(head + ([ESC, 3] + LengthField(|data|, width) + data), [], written)
  {
    DecodeBinaryBlock(data, width);
    DecodeConcat(NEUTRAL, head, [ESC, 3] + LengthField(|data|, width) + data);
    hide After, Decode;
    assert Plain([]) == [];
  }

  function EscapeCode(t: Token): byte
    requires t == EOM || t == EOS || t == Data(ESC)
  {
    if t == EOM then 1 else if t == EOS then 2 else 0
  }

  lemma EncodesEscape(head: seq<byte>, t: Token, written: seq<Token>)
    requires Encodes(head, [], written) && (t == EOM || t == EOS || t == Data(ESC))
    ensures Encodes(head + [ESC] + [EscapeCode(t)], [], written + [t])
  {
    DecodeSnoc(NEUTRAL, head, ESC);
    DecodeSnoc(NEUTRAL, head + [ESC], EscapeCode(t));
    hide After, Decode;
    assert Plain([]) == [];
  }

  /** The last bytes of a text. */
  predicate EndsWith(s: seq<byte>, tail: seq<byte>) { |tail| <= |s| && s[|s| - |tail|..] == tail }

  lemma EndsAppended(a: seq<byte>, b: seq<byte>)
    ensures EndsWith(a + b, b)
  {
  }

  /** What is on the wire after a token: the token as an escape sequence or a plain byte, or a byte of the open block. */
  predicate OnWire(head: seq<byte>, block: seq<byte>, blockOpen: bool, t: Token) {
    match t
    case EOM => EndsWith(head, [3, 1])
    case EOS => EndsWith(head, [3, 2])
    case Data(b) => if blockOpen then EndsWith(block, [b]) else if b == 3 then EndsWith(head, [3, 0]) else EndsWith(head, [b])
    case Bad(_) => false
  }

  class OutputChannel {
    const buf: array<byte>      // obuf->buf
    var cur: nat                // out.cur, as an index into the buffer
    var blockOpen: bool         // out_bin_block != NULL
    var block: nat              // out_bin_block
    var zeroCopy: bool          // out.supports_zero_copy
    var open: bool              // connected, and no output error so far
    var eomCnt: nat             // out_eom_cnt
    var flushCnt: nat           // out_flush_cnt
    var flushEvents: nat        // posted and not yet dispatched tcp_flush_event events
    var sent: seq<byte>         // what has been handed to the output queue

    ghost var flushed: seq<byte>     // what has left the buffer
    ghost var written: seq<Token>    // what clients have written

    /** Size of a block's header: ESC, 3 and the length field. */
    function Header(): nat
    {
      2 + LengthWidth(buf.Length)
    }

    ghost predicate Shape()
      reads this, buf
    {
      && 64 <= buf.Length <= 0x20_0000
      && cur <= buf.Length
      && (blockOpen ==> Header() <= block <= cur && buf[block - Header()] == ESC && buf[block - Header() + 1] == 3)
      && (open ==> sent == flushed)
      && flushEvents == flushCnt <= 2
      && (eomCnt > 0 ==> flushCnt > 0 && cur > 0)
    }

    /** All bytes that are final: those flushed, and those in the buffer before an open block. */
    ghost function Head(): seq<byte>
      requires Shape()
      reads this, buf
    {
      flushed + buf[..][..if blockOpen then block - Header() else cur]
    }

    /** The contents of the open block. */
    ghost function Tail(): seq<byte>
      requires Shape()
      reads this, buf
    {
      if blockOpen then buf[..][block..cur] else []
    }

    ghost predicate Valid()
      reads this, buf
    {
      && Shape()
      && (blockOpen ==> block < cur)
      && Encodes(Head(), Tail(), written)
    }

    /** Nothing of an unfinished message has been written. */
    ghost predicate AtBoundary()
      reads this
    {
      written == [] || !written[|written| - 1].Data?
    }

    lemma BoundaryClosed()
      requires Valid() && AtBoundary()
      ensures !blockOpen
    {
    }

    /** Store bytes at the write position. */
    method Put(bytes: seq<byte>)
      requires Shape() && cur + |bytes| <= buf.Length
      modifies this`cur, buf
      ensures Shape() && cur == old(cur) + |bytes|
      ensures blockOpen ==> Head() == old(Head()) && Tail() == old(Tail()) + bytes
      ensures !blockOpen ==> Head() == old(Head()) + bytes
    {
      ghost var before := buf[..];
      Fill(buf, cur, bytes);
      cur := cur + |bytes|;
      if blockOpen {
        StoredInBlock(before, bytes, old(cur));
      } else {
        StoredOutside(before, bytes, old(cur));
      }
    }

    lemma StoredInBlock(before: seq<byte>, bytes: seq<byte>, at: nat)
      requires blockOpen && |before| == buf.Length && 64 <= buf.Length
      requires Header() <= block <= at && at + |bytes| == cur <= buf.Length
      requires before[block - Header()] == ESC && before[block - Header() + 1] == 3
      requires buf[..] == before[..at] + bytes + before[cur..]
      ensures buf[block - Header()] == ESC && buf[block - Header() + 1] == 3
      ensures buf[..][..block - Header()] == before[..block - Header()]
      ensures buf[..][block..cur] == before[block..at] + bytes
    {
      Stored(before, buf[..], at, bytes, block, block - Header());
      assert buf[..][block - Header()] == ESC && buf[..][block - Header() + 1] == 3;
    }

    lemma StoredOutside(before: seq<byte>, bytes: seq<byte>, at: nat)
      requires |before| == buf.Length && at + |bytes| == cur <= buf.Length
      requires buf[..] == before[..at] + bytes + before[cur..]
      ensures flushed + buf[..][..cur] == flushed + before[..at] + bytes
    {
      Stored(before, buf[..], at, bytes, at, at);
    }

    // tcp_flush_with_flags
    method Flush()
      requires Shape() && !blockOpen
      modifies this`cur, this`eomCnt, this`sent, this`flushed
      ensures Shape() && cur == 0 && Head() == old(Head()) && eomCnt == 0
    {
      if cur == 0 { return; }
      if open {
        sent := sent + buf[..cur];
      }
      flushed := flushed + buf[..cur];
      cur := 0;
      eomCnt := 0;
      assert flushed + buf[..cur] == flushed;
    }

    // tcp_flush_event
    method OnFlushEvent()
      requires Valid() && AtBoundary() && flushEvents > 0
      modifies this`cur, this`eomCnt, this`sent, this`flushed, this`flushCnt, this`flushEvents
      ensures Valid() && flushCnt == old(flushCnt) - 1
      ensures if flushCnt == 0 || old(eomCnt) > 3 then cur == 0 else cur == old(cur) && sent == old(sent)
    {
      BoundaryClosed();
      hide Encodes;
      if flushCnt == 1 {
        Flush();
      } else if eomCnt > 3 {
        Flush();
      }
      flushCnt := flushCnt - 1;
      flushEvents := flushEvents - 1;
    }

    // tcp_bin_block_start
    method BlockStart()
      requires Shape() && !blockOpen && cur + Header() < buf.Length
      modifies this`cur, this`block, this`blockOpen, buf
      ensures Shape() && blockOpen && block == cur == old(cur) + Header()
      ensures Head() == old(Head()) && Tail() == []
    {
      ghost var before, at := buf[..], cur;
      StoreHeader();
      cur := cur + Header();
      block := cur;
      blockOpen := true;
      assert buf[..at] == before[..at];
    }

    method StoreHeader()
      requires cur + Header() < buf.Length
      modifies buf
      ensures buf[cur] == ESC && buf[cur + 1] == 3
      ensures forall i :: 0 <= i < cur ==> buf[i] == old(buf[i])
    {
      buf[cur] := ESC;
      buf[cur + 1] := 3;
      buf[cur + 2] := 0;
      buf[cur + 3] := 0;
      if buf.Length > 0x4000 {
        buf[cur + 4] := 0;
      }
    }

    method StoreLength(len: nat)
      requires Header() <= block <= buf.Length
      modifies buf
      ensures buf[block - LengthWidth(buf.Length)..block] == LengthField(len, LengthWidth(buf.Length))
      ensures forall i :: 0 <= i < buf.Length && !(block - LengthWidth(buf.Length) <= i < block) ==> buf[i] == old(buf[i])
    {
      if buf.Length > 0x4000 {
        buf[block - 3] := (len % 128 + 128) as byte;
        buf[block - 2] := (len / 128 % 128 + 128) as byte;
        buf[block - 1] := (len / 0x4000 % 256) as byte;
      } else {
        buf[block - 2] := (len % 128 + 128) as byte;
        buf[block - 1] := (len / 128 % 256) as byte;
      }
    }

    // tcp_bin_block_end
    method BlockEnd()
      requires Valid() && blockOpen
      modifies this`block, this`blockOpen, buf
      ensures Valid() && !blockOpen
      ensures Head() == old(Head()) + ([3, 3] + LengthField(|old(Tail())|, LengthWidth(buf.Length)) + old(Tail()))
    {
      hide Encodes, LengthField, Plain;
      var len := cur - block;
      ghost var head, data, at := Head(), Tail(), block - Header();
      ghost var before := buf[..];
      EncodesClosed(head, data, LengthWidth(buf.Length), written);
      StoreLength(len);
      assert buf[..][..at] == before[..at];
      assert buf[..][block..cur] == before[block..cur];
      BlockBytes(buf[..], at, block, cur);
      blockOpen := false;
      assert Head() == head + ([ESC, 3] + LengthField(len, LengthWidth(buf.Length)) + data);
    }

    /** Store bytes that stand for themselves, where the state of the stream allows it. */
    method PutPlain(bytes: seq<byte>)
      requires Shape() && cur + |bytes| <= buf.Length && bytes != []
      requires Encodes(Head(), Tail(), written) && (blockOpen || ESC !in bytes)
      modifies this`cur, this`written, buf
      ensures Valid() && written == old(written) + Plain(bytes)
      ensures cur == old(cur) + |bytes| && blockOpen == old(blockOpen)
      ensures EndsWith(if blockOpen then Tail() else Head(), bytes)
    {
      hide Encodes, Plain;
      if blockOpen {
        EncodesInBlock(Head(), Tail(), bytes, written);
      } else {
        EncodesPlain(Head(), bytes, written);
      }
      EndsAppended(if blockOpen then Tail() else Head(), bytes);
      Put(bytes);
      written := written + Plain(bytes);
    }

    method CountEom()
      requires Shape() && cur > 0
      modifies this`eomCnt, this`flushCnt, this`flushEvents
      ensures Shape() && flushCnt > 0
      ensures eomCnt == old(eomCnt) + 1 && flushCnt == (if old(flushCnt) < 2 then old(flushCnt) + 1 else old(flushCnt))
    {
      eomCnt := eomCnt + 1;
      if flushCnt < 2 {
        flushCnt := flushCnt + 1;
        flushEvents := flushEvents + 1;
      }
    }

    /** Write a token as an escape sequence. */
    method WriteEscape(t: Token)
      requires Valid() && !blockOpen && cur < buf.Length
      requires t == EOM || t == EOS || t == Data(ESC)
      modifies this, buf
      ensures Valid() && !blockOpen && written == old(written) + [t]
      ensures zeroCopy == old(zeroCopy) && open == old(open)
      ensures t == EOM ==> flushCnt > 0
      ensures Head() == old(Head()) + [ESC] + [EscapeCode(t)]
      ensures t == EOM ==> eomCnt == (if old(cur) + 1 == buf.Length then 1 else old(eomCnt) + 1)
    {
      hide Encodes;
      EncodesEscape(Head(), t, written);
      Put([ESC]);
      if cur == buf.Length { Flush(); }
      Put([EscapeCode(t)]);
      written := written + [t];
      if t == EOM { CountEom(); }
    }

    // tcp_write_stream
    method Write(t: Token)
      requires Valid() && !t.Bad?
      modifies this, buf
      ensures Valid() && written == old(written) + [t]
      ensures zeroCopy == old(zeroCopy) && open == old(open)
      ensures t == EOM ==> flushCnt > 0
      ensures OnWire(Head(), Tail(), blockOpen, t)
      ensures t == EOM ==> eomCnt == 1 || eomCnt == old(eomCnt) + 1
    {
      hide Encodes;
      if !zeroCopy || cur >= buf.Length - 32 || !t.Data? {
        Close();
        if !t.Data? || t.b == ESC {
          ghost var head := Head();
          WriteEscape(t);
          EndsAppended(head, [ESC] + [EscapeCode(t)]);
          assert head + ([ESC] + [EscapeCode(t)]) == Head() && [ESC] + [EscapeCode(t)] == [ESC, EscapeCode(t)];
          return;
        }
      } else if !blockOpen {
        BlockStart();
      }
      PutPlain([t.b]);
      assert Plain([t.b]) == [t];
    }

    /** Close an open block, and make room for at least one byte. */
    method Close()
      requires Valid()
      modifies this, buf
      ensures Valid() && !blockOpen && cur < buf.Length && written == old(written)
      ensures zeroCopy == old(zeroCopy) && open == old(open)
      ensures eomCnt == 0 || eomCnt == old(eomCnt)
    {
      hide Encodes;
      if blockOpen { BlockEnd(); }
      if cur == buf.Length { Flush(); }
    }

    // write_stream: a byte above ESC goes straight into the buffer
    method WriteStream(t: Token)
      requires Valid() && !t.Bad?
      modifies this, buf
      ensures Valid() && written == old(written) + [t]
      ensures zeroCopy == old(zeroCopy) && open == old(open)
      ensures t == EOM ==> flushCnt > 0
      ensures OnWire(Head(), Tail(), blockOpen, t)
      ensures t == EOM ==> eomCnt == 1 || eomCnt == old(eomCnt) + 1
    {
      hide Encodes;
      if t.Data? && t.b > ESC && cur < buf.Length {
        PutPlain([t.b]);
        assert Plain([t.b]) == [t];
      } else {
        Write(t);
      }
    }

    // tcp_write_block_stream
    method WriteBlock(bytes: seq<byte>)
      requires Valid()
      modifies this, buf
      ensures Valid() && written == old(written) + Plain(bytes)
      ensures zeroCopy == old(zeroCopy) && open == old(open)
    {
      hide Encodes, Plain, Head, Tail;
      var src := 0;
      PlainSplit(bytes, 0, 0);
      while src < |bytes|
        invariant 0 <= src <= |bytes|
        invariant Valid() && written == old(written) + Plain(bytes[..src])
        invariant zeroCopy == old(zeroCopy) && open == old(open)
      {
        var step := WriteSome(bytes[src..]);
        PlainSplit(bytes, src, src + step);
        assert bytes[src..][..step] == bytes[src..src + step];
        src := src + step;
      }
      assert bytes[..src] == bytes;
    }

    /** One turn of the block writer's loop. */
    method WriteSome(src: seq<byte>) returns (n: nat)
      requires Valid() && src != []
      modifies this, buf
      ensures 0 < n <= |src|
      ensures Valid() && written == old(written) + Plain(src[..n])
      ensures zeroCopy == old(zeroCopy) && open == old(open)
    {
      hide Encodes;
      n := buf.Length - cur;
      if n > |src| { n := |src|; }
      if n == 0 {
        n := 1;
        Write(Data(src[0]));
        assert Plain(src[..1]) == [Data(src[0])];
      } else if blockOpen {
        PutPlain(src[..n]);
      } else if src[0] != ESC {
        var end := n;
        n := 1;
        while n < end && src[n] != ESC
          invariant 1 <= n <= end
          invariant ESC !in src[..n]
        {
          assert src[..n + 1] == src[..n] + [src[n]];
          n := n + 1;
        }
        PutPlain(src[..n]);
      } else {
        n := 1;
        Write(Data(src[0]));
        assert Plain(src[..1]) == [Data(src[0])];
      }
    }

    // write_string and write_stringz: characters other than ESC go straight into the buffer while it has room
    method WriteChars(str: seq<byte>)
      requires Valid()
      modifies this, buf
      ensures Valid() && written == old(written) + Plain(str)
      ensures zeroCopy == old(zeroCopy) && open == old(open)
    {
      hide Encodes, Head, Tail;
      var s := 0;
      PlainSplit(str, 0, 0);
      while s < |str|
        invariant 0 <= s <= |str|
        invariant Valid() && written == old(written) + Plain(str[..s])
        invariant zeroCopy == old(zeroCopy) && open == old(open)
      {
        var ch := str[s];
        PlainSplit(str, s, s + 1);
        assert Plain(str[s..s + 1]) == [Data(ch)] == Plain([ch]);
        if ch != ESC && cur < buf.Length {
          PutPlain([ch]);
        } else {
          Write(Data(ch));
        }
        s := s + 1;
      }
      assert str[..s] == str;
    }

    /** Several tokens, one by one, through write_stream. */
    method WriteEach(bytes: seq<byte>)
      requires Valid()
      modifies this, buf
      ensures Valid() && written == old(written) + Plain(bytes)
      ensures zeroCopy == old(zeroCopy) && open == old(open)
    {
      hide Encodes, Head, Tail;
      PlainSplit(bytes, 0, 0);
      for i := 0 to |bytes|
        invariant Valid() && written == old(written) + Plain(bytes[..i])
        invariant zeroCopy == old(zeroCopy) && open == old(open)
      {
        PlainSplit(bytes, i, i + 1);
        assert Plain(bytes[i..i + 1]) == [Data(bytes[i])];
        WriteStream(Data(bytes[i]));
      }
      assert bytes[..|bytes|] == bytes;
    }

    /** Characters that need no escaping: copied straight into the buffer if they fit.  None of
        them is ESC, so the copy is safe whether or not a block is open. */
    method WriteUnescaped(run: seq<byte>)
      requires Valid() && run != []
      requires forall i :: 0 <= i < |run| ==> !NeedsEscape(run[i])
      modifies this, buf
      ensures Valid() && written == old(written) + Plain(run)
      ensures zeroCopy == old(zeroCopy) && open == old(open)
    {
      hide Encodes, Plain;
      assert ESC !in run;
      if cur + |run| <= buf.Length {
        PutPlain(run);
      } else {
        WriteBlock(run);
      }
    }

    // json_write_string_len; json_write_string is the case of a string without NUL
    method WriteJsonString(str: seq<byte>)
      requires Valid()
      modifies this, buf
      ensures Valid() && written == old(written) + Plain(Quoted(str))
      ensures exists t :: written == old(written) + Plain([0x22] + t) && forall tail :: ReadBody(t + tail) == Some((str, tail))
      ensures zeroCopy == old(zeroCopy) && open == old(open)
    {
      hide Valid, Plain, Body, ReadBody;
      WriteEach([QUOTE]);
      var s := 0;
      BodyPlain(str[..0]);
      while s < |str|
        invariant 0 <= s <= |str|
        invariant Valid() && written == old(written) + Plain([QUOTE] + Body(str[..s]))
        invariant zeroCopy == old(zeroCopy) && open == old(open)
      {
        s := WriteJsonPart(str, s);
      }
      WriteEach([QUOTE]);
      assert str[..s] == str;
      PlainConcat([QUOTE] + Body(str), [QUOTE]);
      ghost var t := Quoted(str)[1..];
      forall tail ensures ReadBody(t + tail) == Some((str, tail)) { QuotedRoundTrip(str, tail); }
      assert Quoted(str) == [0x22] + t;
    }

    /** One turn of the string writer's loop: a run of plain characters and the escaped one after it. */
    method WriteJsonPart(str: seq<byte>, ptr: nat) returns (s: nat)
      requires Valid() && ptr < |str|
      modifies this, buf
      ensures ptr < s <= |str| && Valid()
      ensures written == old(written) + Plain(Body(str[ptr..s]))
      ensures Plain([QUOTE] + Body(str[..s])) == Plain([QUOTE] + Body(str[..ptr])) + Plain(Body(str[ptr..s]))
      ensures zeroCopy == old(zeroCopy) && open == old(open)
    {
      hide Valid, Plain, Body, EscapeSequence;
      PlainNone(written);
      s := RunEnd(str, ptr);
      BodyPlain(str[ptr..s]);
      if ptr < s {
        WriteUnescaped(str[ptr..s]);
      } else {
        PlainNone(written);
        assert str[ptr..s] == [];
      }
      if s < |str| {
        WriteEach(EscapeSequence(str[s]));
        BodyOne(str[s]);
        assert str[ptr..s + 1] == str[ptr..s] + [str[s]];
        BodyConcat(str[ptr..s], [str[s]]);
        PlainConcat(Body(str[ptr..s]), Body([str[s]]));
        s := s + 1;
      }
      JsonMore(str, ptr, s);
      PlainNone(written);
    }

    constructor (size: nat)
      requires 64 <= size <= 0x20_0000
      ensures Valid() && fresh(buf) && open && written == [] && sent == []
      ensures cur == 0 && !blockOpen && !zeroCopy && eomCnt == flushCnt == flushEvents == 0
    {
      buf := new byte[size];
      cur, block, blockOpen, zeroCopy, open := 0, 0, false, false, true;
      eomCnt, flushCnt, flushEvents := 0, 0, 0;
      sent, flushed, written := [], [], [];
      new;
      assert Head() == [] && Plain([]) == [];
    }

    /** `inside` says that a message has been begun and not ended; the event loop runs no flush event then. */
    method Perform(op: WriteOp, inside: bool)
      requires Valid() && inside == !AtBoundary()
      modifies this, buf
      ensures Valid() && written == old(written) + Meaning(op)
      ensures op.FlushEvent? && old(flushEvents) > 0 && !inside ==>
                flushCnt == old(flushCnt) - 1 && (flushCnt == 0 || old(eomCnt) > 3 ==> cur == 0)
    {
      hide Encodes, Plain, Quoted;
      match op {
        case Single(t) => if !t.Bad? { Write(t); }
        case Stream(t) => if !t.Bad? { WriteStream(t); }
        case Block(bytes) => WriteBlock(bytes);
        case Chars(bytes) => WriteChars(bytes);
        case Json(str) => WriteJsonString(str);
        case FlushEvent => if flushEvents > 0 && !inside { OnFlushEvent(); }
        case ZeroCopy(on) => zeroCopy := on;
        case Fail => open := false;
      }
    }

    /** Whatever mix of paths, flush points and settings is used, what was written is encoded faithfully. */
    method Run(ops: seq<WriteOp>, inside: bool)
      requires Valid() && inside == !AtBoundary()
      modifies this, buf
      ensures Valid() && written == old(written) + MeaningAll(ops)
      ensures open ==> Decode(NEUTRAL, sent) <= written
      ensures open && cur == 0 ==> Decode(NEUTRAL, sent) == written
    {
      hide Valid, Decode, Meaning;
      var now := inside;
      for i := 0 to |ops|
        invariant Valid() && written == old(written) + MeaningAll(ops[..i])
        invariant now == !AtBoundary()
      {
        Perform(ops[i], now);
        now := Inside(now, Meaning(ops[i]));
        assert ops[..i + 1][..i] == ops[..i];
      }
      assert ops[..|ops|] == ops;
      Faithful();
    }

    /** What the invariant means: the bytes sent are a prefix of the encoding of what was written,
        all of it once the buffer has been flushed; a complete message in the buffer has a flush
        event coming; and no block is open between messages. */
    lemma Faithful()
      requires Valid()
      ensures open ==> Decode(NEUTRAL, sent) <= written
      ensures open && cur == 0 ==> Decode(NEUTRAL, sent) == written
      ensures eomCnt > 0 ==> flushEvents > 0
      ensures AtBoundary() ==> !blockOpen
    {
      if AtBoundary() { BoundaryClosed(); }
      DecodePrefix(NEUTRAL, flushed, Head());
      assert flushed + [] == flushed;
    }
  }

  /** What can happen to the sending half of a channel. */
  datatype WriteOp = Single(t: Token) | Stream(t: Token) | Block(bytes: seq<byte>) | Chars(bytes: seq<byte>)
                   | Json(str: seq<byte>) | FlushEvent | ZeroCopy(on: bool) | Fail

  function Meaning(op: WriteOp): seq<Token> {
    match op
    case Single(t) => if t.Bad? then [] else [t]
    case Stream(t) => if t.Bad? then [] else [t]
    case Block(bytes) => Plain(bytes)
    case Chars(bytes) => Plain(bytes)
    case Json(str) => Plain(Quoted(str))
    case FlushEvent => []
    case ZeroCopy(_) => []
    case Fail => []
  }

  /** Whether a message is unfinished after some more tokens. */
  predicate Inside(now: bool, more: seq<Token>) { if more == [] then now else more[|more| - 1].Data? }

  function MeaningAll(ops: seq<WriteOp>): seq<Token> {
    if ops == [] then [] else MeaningAll(ops[..|ops| - 1]) + Meaning(ops[|ops| - 1])
  }

  method RunEnd(str: seq<byte>, ptr: nat) returns (s: nat)
    requires ptr <= |str|
    ensures ptr <= s <= |str| && (s < |str| ==> NeedsEscape(str[s]))
    ensures forall i :: ptr <= i < s ==> !NeedsEscape(str[i])
  {
    s := ptr;
    while s < |str| && !NeedsEscape(str[s])
      invariant ptr <= s <= |str|
      invariant forall i :: ptr <= i < s ==> !NeedsEscape(str[i])
    {
      s := s + 1;
    }
  }

  lemma PlainNone(ts: seq<Token>)
    ensures ts + Plain([]) == ts
  {
  }

  lemma PlainConcat(a: seq<byte>, b: seq<byte>)
    ensures Plain(a + b) == Plain(a) + Plain(b)
  {
  }

  lemma BodyOne(b: byte)
    ensures Body([b]) == QuoteByte(b)
  {
    assert [b][1..] == [];
  }

  /** Extending the quoted text by the next characters. */
  lemma JsonMore(str: seq<byte>, from: nat, to: nat)
    requires from <= to <= |str|
    ensures Plain([QUOTE] + Body(str[..to])) == Plain([QUOTE] + Body(str[..from])) + Plain(Body(str[from..to]))
  {
    assert str[..to] == str[..from] + str[from..to];
    BodyConcat(str[..from], str[from..to]);
    assert [QUOTE] + (Body(str[..from]) + Body(str[from..to])) == [QUOTE] + Body(str[..from]) + Body(str[from..to]);
    PlainConcat([QUOTE] + Body(str[..from]), Body(str[from..to]));
  }

  lemma PlainSplit(bytes: seq<byte>, from: nat, to: nat)
    requires from <= to <= |bytes|
    ensures Plain(bytes[..to]) == Plain(bytes[..from]) + Plain(bytes[from..to])
    ensures Plain(bytes[..0]) == []
  {
  }

  /** Storing `bytes` at `at` leaves what is before alone and extends every slice that ends there. */
  lemma Stored(before: seq<byte>, after: seq<byte>, at: nat, bytes: seq<byte>, from: nat, top: nat)
    requires |before| == |after| && top <= from <= at && at + |bytes| <= |before|
    requires after == before[..at] + bytes + before[at + |bytes|..]
    ensures after[..top] == before[..top]
    ensures after[from..at + |bytes|] == before[from..at] + bytes
    ensures after[..at + |bytes|] == before[..at] + bytes
    ensures forall i :: 0 <= i < at ==> after[i] == before[i]
  {
  }

  lemma BlockBytes(bs: seq<byte>, at: nat, block: nat, cur: nat)
    requires at + 2 <= block <= cur <= |bs| && bs[at] == ESC && bs[at + 1] == 3
    ensures bs[..cur] == bs[..at] + ([ESC, 3] + bs[at + 2..block] + bs[block..cur])
  {
    assert bs[at..at + 2] == [ESC, 3];
  }
}
