/** Binary data as a JSON base64 string, written in pieces of any size and read into buffers of any size. */
module BinaryStream {
  import opened Wire
  import opened Base64

  const OBF_SIZE: nat := 0x100

  // ----- writing -----

  lemma NextGroup(data: seq<byte>, pos: nat)
    requires pos < |data|
    ensures var n := Min(3, |data| - pos);
            Encode(data[pos..]) == Group(data[pos..]) + Encode(data[pos + n..])
  {
    hide Group;
    var n := Min(3, |data| - pos);
    assert data[pos..][n..] == data[pos + n..];
  }

  lemma Regroup(a: string, b: string, g: string, e: string)
    ensures (a + (b + g)) + e == (a + b) + (g + e)
  {
  }

  /** Encode the group at `pos` into the output buffer. */
  method PutGroup(obf: array<char>, n: nat, data: seq<byte>, pos: nat) returns (pos2: nat)
    requires pos < |data| && n + 4 <= obf.Length
    modifies obf
    ensures pos2 == pos + Min(3, |data| - pos)
    ensures obf[..][..n + 4] == old(obf[..][..n]) + Group(data[pos..])
  {
    ghost var before := obf[..];
    var b0 := data[pos] as int;
    obf[n] := Char(Code0(b0));
    pos2 := pos + 1;
    if pos2 == |data| {
      obf[n + 1], obf[n + 2], obf[n + 3] := Char(Code1(b0, 0)), '=', '=';
    } else {
      var b1 := data[pos2] as int;
      pos2 := pos2 + 1;
      obf[n + 1] := Char(Code1(b0, b1));
      if pos2 == |data| {
        obf[n + 2], obf[n + 3] := Char(Code2(b1, 0)), '=';
      } else {
        var b2 := data[pos2] as int;
        pos2 := pos2 + 1;
        obf[n + 2], obf[n + 3] := Char(Code2(b1, b2)), Char(Code3(b2));
      }
    }
    assert obf[..][..n] == before[..n];
    assert obf[..][..n + 4] == obf[..][..n] + [obf[n], obf[n + 1], obf[n + 2], obf[n + 3]];
  }

  /** The whole encoder: what it puts into the stream, a block of the output buffer at a time, is the encoding of the data. */
  method WriteBase64(out0: string, data: seq<byte>) returns (out: string, size: nat)
    ensures out == out0 + Encode(data) && size == |Encode(data)|
  {
    hide Group, Encode;
    EncodeLength(data);
    var obf := new char[OBF_SIZE + 8];
    var n, pos := 0, 0;
    out := out0;
    Begin(out0, obf[..][..0], data);
    while pos < |data|
      invariant pos <= |data| && n < OBF_SIZE
      invariant (out + obf[..][..n]) + Encode(data[pos..]) == out0 + Encode(data)
    {
      NextGroup(data, pos);
      ghost var g, done := Group(data[pos..]), obf[..][..n];
      pos := PutGroup(obf, n, data, pos);
      Regroup(out, done, g, Encode(data[pos..]));
      n := n + 4;
      if n >= OBF_SIZE {
        out := out + obf[..][..n];
        n := 0;
        Flushed(out, obf[..][..0]);
      }
    }
    Finished(data[pos..], out + obf[..][..n]);
    if n > 0 {
      out := out + obf[..][..n];
    } else {
      Flushed(out, obf[..][..0]);
    }
    size := (|data| + 2) / 3 * 4;
  }

  lemma Begin(out: string, none: string, data: seq<byte>)
    requires none == ""
    ensures (out + none) + Encode(data[0..]) == out + Encode(data)
  {
    hide Encode;
    assert data[0..] == data && out + none == out;
  }

  lemma Flushed(out: string, none: string)
    requires none == ""
    ensures out + none == out
  {
  }

  lemma Finished(rest: seq<byte>, out: string)
    requires rest == []
    ensures out + Encode(rest) == out
  {
  }

  /** Whole groups have been written; what is left of the data, `kept`, is not. */
  ghost predicate Written(out: string, kept: seq<byte>, before: string, given: seq<byte>) {
    && |kept| <= |given| && (|given| - |kept|) % 3 == 0
    && given[|given| - |kept|..] == kept
    && out == before + "\"" + Encode(given[..|given| - |kept|])
  }

  lemma WrittenNothing(text: string)
    ensures Written(text + "\"", [], text, [])
  {
    assert Encode([]) == "";
  }

  lemma Rejoin(a: string, b: string, c: string)
    ensures (a + b) + c == a + (b + c)
  {
  }

  /** More data is kept. */
  lemma WrittenKeep(out: string, kept: seq<byte>, before: string, given: seq<byte>, data: seq<byte>)
    requires Written(out, kept, before, given)
    ensures Written(out, kept + data, before, given + data)
  {
    hide Encode;
    var all := given + data;
    assert all[..|given| - |kept|] == given[..|given| - |kept|];
    assert all[|given| - |kept|..] == kept + data;
  }

  /** Kept data that makes whole groups is written. */
  lemma WrittenFlush(out: string, kept: seq<byte>, before: string, given: seq<byte>)
    requires Written(out, kept, before, given) && |kept| % 3 == 0
    ensures Written(out + Encode(kept), [], before, given)
  {
    hide Encode;
    var whole := given[..|given| - |kept|];
    assert given == whole + kept;
    EncodeConcat(whole, kept);
    Rejoin(before + "\"", Encode(whole), Encode(kept));
    assert given[..|given|] == given;
  }

  lemma WrittenEnd(out: string, kept: seq<byte>, before: string, given: seq<byte>)
    requires Written(out, kept, before, given)
    ensures out + Encode(kept) == before + "\"" + Encode(given)
  {
    hide Encode;
    var whole := given[..|given| - |kept|];
    assert given == whole + kept;
    EncodeConcat(whole, kept);
    Rejoin(before + "\"", Encode(whole), Encode(kept));
  }

  class BinaryWriter {
    var out: string
    const buf: array<byte>
    var rem: nat
    /** The text before this string, and the data given so far. */
    ghost var before: string
    ghost var given: seq<byte>

    ghost predicate Valid()
      reads this, buf
    {
      buf.Length == 3 && rem < 3 && Written(out, buf[..][..rem], before, given)
    }

    constructor Start(text: string)
      ensures Valid() && fresh(buf) && given == [] && before == text
    {
      out, buf, rem, before, given := text + ['"'], new byte[3], 0, text, [];
      new;
      WrittenNothing(text);
    }

    /** Give some data, of any length. */
    method Data(data: seq<byte>)
      requires Valid()
      modifies this`out, this`rem, this`given, buf
      ensures Valid() && given == old(given) + data
    {
      hide Written;
      if |data| == 0 {
        assert given + data == given;
        return;
      }
      var n := 0;
      if rem > 0 {
        n := TopUp(data);
      }
      assert data[..n] + data[n..] == data;
      if n < |data| {
        Whole(data[n..]);
      }
    }

    /** Fill the kept bytes up to a group, and write the group when it is full. */
    method TopUp(data: seq<byte>) returns (n: nat)
      requires Valid() && rem > 0
      modifies this`out, this`rem, this`given, buf
      ensures Valid() && n <= |data| && given == old(given) + data[..n]
      ensures n < |data| ==> rem == 0
    {
      hide Written, Encode;
      var r := rem;
      n := 0;
      ghost var kept := buf[..][..rem];
      assert kept + data[..0] == kept;
      while r < 3 && n < |data|
        modifies buf
        invariant n <= |data| && r <= 3 && n == r - old(rem)
        invariant buf[..][..r] == kept + data[..n]
      {
        Append(buf, r, data[n]);
        assert data[..n + 1] == data[..n] + [data[n]];
        r, n := r + 1, n + 1;
      }
      WrittenKeep(out, kept, before, given, data[..n]);
      given := given + data[..n];
      if r >= 3 {
        WrittenFlush(out, buf[..][..r], before, given);
        var size;
        out, size := WriteBase64(out, buf[..][..r]);
        r := 0;
      }
      rem := r;
    }

    static method Append(buf: array<byte>, r: nat, b: byte)
      requires r < buf.Length
      modifies buf
      ensures buf[..][..r + 1] == old(buf[..][..r]) + [b]
    {
      buf[r] := b;
      assert buf[..][..r] == old(buf[..][..r]);
    }

    /** Write the whole groups straight from the data and keep the rest. */
    method Whole(data: seq<byte>)
      requires Valid() && rem == 0
      modifies this`out, this`rem, this`given, buf
      ensures Valid() && given == old(given) + data
    {
      hide Written, Encode;
      var size;
      var r := |data| % 3;
      var m := |data| - r;
      assert data[..m] + data[m..] == data;
      assert buf[..][..0] + data[..m] == data[..m];
      WrittenKeep(out, buf[..][..0], before, given, data[..m]);
      WrittenFlush(out, data[..m], before, given + data[..m]);
      WrittenKeep(out + Encode(data[..m]), [], before, given + data[..m], data[m..]);
      assert given + data[..m] + data[m..] == given + data;
      out, size := WriteBase64(out, data[..m]);
      Keep(data, m, r);
      given := given + data;
      rem := r;
    }

    /** Copy the last bytes of the data into the buffer. */
    method Keep(data: seq<byte>, m: nat, r: nat)
      requires r <= buf.Length && m + r == |data|
      modifies buf
      ensures buf[..][..r] == [] + data[m..]
    {
      var i := 0;
      while i < r
        invariant i <= r && buf[..][..i] == data[m..m + i]
      {
        Append(buf, i, data[m + i]);
        assert data[m..m + i + 1] == data[m..m + i] + [data[m + i]];
        i := i + 1;
      }
    }

    /** The closing quote: however the data was split, the text is the one-shot encoding of all of it. */
    method End()
      requires Valid()
      modifies this`out
      ensures out == before + "\"" + Encode(given) + "\""
    {
      hide Encode, Written;
      WrittenEnd(out, buf[..][..rem], before, given);
      if rem > 0 {
        var size;
        out, size := WriteBase64(out, buf[..][..rem]);
      } else {
        Finished(buf[..][..rem], out);
      }
      out := out + ['"'];
    }
  }

  // ----- reading -----

  /** Copy bytes into a buffer. */
  method Store(dst: array<byte>, at: nat, bytes: seq<byte>)
    requires at + |bytes| <= dst.Length
    modifies dst
    ensures dst[..][..at + |bytes|] == old(dst[..][..at]) + bytes
  {
    ghost var head := dst[..][..at];
    assert head + bytes[..0] == head;
    for i := 0 to |bytes|
      invariant dst[..][..at + i] == head + bytes[..i]
    {
      dst[at + i] := bytes[i];
      assert dst[..][..at + i] == head + bytes[..i];
      assert bytes[..i + 1] == bytes[..i] + [bytes[i]];
    }
    assert bytes[..|bytes|] == bytes;
  }

  /** How far the reader has come: the destination holds `m` bytes after `head`, and the others are still to be read at `pos`. */
  ghost predicate Midway(text: string, pos: nat, q: nat, rest: seq<byte>, m: nat, head: seq<byte>, dst: seq<byte>) {
    m <= |rest| && dst == head + rest[..m] && Carries(text, pos, q, rest[m..])
  }

  lemma MidwayStart(text: string, pos: nat, q: nat, rest: seq<byte>, head: seq<byte>)
    requires Carries(text, pos, q, rest)
    ensures Midway(text, pos, q, rest, 0, head, head)
  {
    hide Carries;
    assert rest[0..] == rest && head + rest[..0] == head;
  }

  lemma MidwayNext(text: string, pos: nat, q: nat, rest: seq<byte>, m: nat, head: seq<byte>, dst: seq<byte>)
    requires Midway(text, pos, q, rest, m, head, dst)
    ensures m <= |rest| && (m == |rest| ==> ReadGroup(text, pos) == Stop)
    ensures m < |rest| ==>
              var k := Min(3, |rest| - m);
              && ReadGroup(text, pos) == Got(rest[m..m + k], |rest| - m < 3)
              && Midway(text, pos + 4, q, rest, m + k, head, dst + rest[m..m + k])
  {
    hide Carries, ReadGroup, Encode, Head, Rest;
    CarriesNext(text, pos, q, rest[m..]);
    if m < |rest| {
      Cuts(rest, m, Min(3, |rest| - m));
    }
  }

  lemma Cuts(rest: seq<byte>, m: nat, k: nat)
    requires m < |rest| && k == Min(3, |rest| - m)
    ensures Head(rest[m..]) == rest[m..m + k] && Rest(rest[m..]) == rest[m + k..]
    ensures forall head: seq<byte> :: (head + rest[..m]) + rest[m..m + k] == head + rest[..m + k]
  {
    assert rest[..m] + rest[m..m + k] == rest[..m + k];
  }

  lemma MidwayEnd(text: string, pos: nat, q: nat, rest: seq<byte>, m: nat, head: seq<byte>, dst: seq<byte>, size: nat, groups: nat)
    requires Midway(text, pos, q, rest, m, head, dst)
    requires m <= 3 * groups <= size && (m == |rest| || (m == 3 * groups && m + 3 > size))
    ensures m == Fitting(size, rest) && dst == head + rest[..m] && Carries(text, pos, q, rest[m..])
  {
    hide Carries;
    assert 3 * groups <= size / 3 * 3;
  }

  /** What is still to be delivered is `data`: first the bytes kept from a group that did not fit, then those of the text. */
  ghost predicate Holds(text: string, pos: nat, q: nat, kept: seq<byte>, data: seq<byte>) {
    |kept| <= |data| && kept == data[..|kept|] && Carries(text, pos, q, data[|kept|..])
  }

  /** The first `n` bytes of the data have been delivered. */
  ghost predicate Delivered(text: string, pos: nat, q: nat, kept: seq<byte>, data: seq<byte>, n: nat, dst: seq<byte>) {
    n <= |data| && dst == data[..n] && Holds(text, pos, q, kept, data[n..])
  }

  lemma DeliveredNothing(text: string, pos: nat, q: nat, kept: seq<byte>, data: seq<byte>, none: seq<byte>)
    requires Holds(text, pos, q, kept, data) && none == []
    ensures Delivered(text, pos, q, kept, data, 0, none)
  {
    hide Carries;
    assert data[0..] == data;
  }

  /** Some of the kept bytes are delivered. */
  lemma DeliveredKept(text: string, pos: nat, q: nat, kept: seq<byte>, data: seq<byte>, n: nat, dst: seq<byte>, i: nat)
    requires Delivered(text, pos, q, kept, data, n, dst) && i <= |kept|
    ensures Delivered(text, pos, q, kept[i..], data, n + i, dst + kept[..i])
  {
    hide Carries;
    var d := data[n..];
    assert data[n + i..] == d[i..];
    assert d[i..][..|kept| - i] == kept[i..];
    assert d[i..][|kept| - i..] == d[|kept|..];
    assert data[..n + i] == data[..n] + d[..i];
    assert d[..i] == kept[..i];
  }

  /** With nothing kept, the text holds the rest of the data. */
  lemma DeliveredText(text: string, pos: nat, q: nat, kept: seq<byte>, data: seq<byte>, n: nat, dst: seq<byte>)
    requires Delivered(text, pos, q, kept, data, n, dst) && kept == []
    ensures n <= |data| && dst == data[..n] && Carries(text, pos, q, data[n..])
  {
    hide Carries;
    assert data[n..][0..] == data[n..];
  }

  /** A block has been decoded into the destination. */
  lemma DeliveredBlock(text: string, pos: nat, q: nat, none: seq<byte>, data: seq<byte>, n: nat, k: nat, dst: seq<byte>)
    requires n + k <= |data| && dst == data[..n] + data[n..][..k] && Carries(text, pos, q, data[n..][k..]) && none == []
    ensures Delivered(text, pos, q, none, data, n + k, dst)
  {
    hide Carries;
    assert data[..n] + data[n..][..k] == data[..n + k];
    assert data[n..][k..] == data[n + k..];
    assert data[n + k..][0..] == data[n + k..];
  }

  /** A group has been decoded and is kept. */
  lemma DeliveredGroup(text: string, pos: nat, q: nat, kept: seq<byte>, data: seq<byte>, n: nat, dst: seq<byte>)
    requires n + |kept| <= |data| && dst == data[..n] && kept == data[n..][..|kept|] && Carries(text, pos, q, data[n..][|kept|..])
    ensures Delivered(text, pos, q, kept, data, n, dst)
  {
    hide Carries;
  }

  lemma DeliveredEnd(text: string, pos: nat, q: nat, kept: seq<byte>, data: seq<byte>, n: nat, dst: seq<byte>)
    requires Delivered(text, pos, q, kept, data, n, dst)
    ensures n <= |data| && dst == data[..n] && Holds(text, pos, q, kept, data[n..])
  {
    hide Carries;
  }

  class BinaryReader {
    const text: string
    var pos: nat
    const buf: array<byte>
    var rem: nat

    constructor Start(text: string, pos: nat)
      ensures fresh(buf) && buf.Length == 3 && rem == 0 && this.text == text && this.pos == pos
    {
      this.text, this.pos, rem, buf := text, pos, 0, new byte[3];
    }

    /** Decode whole groups while they fit the destination, up to the first character that is not of the alphabet or the end
        of the padding. `ok` is false if a group is malformed. */
    method ReadBase64(dst: array<byte>, at: nat, size: nat, ghost rest: seq<byte>, ghost q: nat) returns (ok: bool, m: nat)
      requires size >= 3 && at + size <= dst.Length
      modifies this`pos, dst
      ensures m <= size && dst[..][..at] == old(dst[..][..at])
      ensures Carries(text, old(pos), q, rest) ==>
                && ok && m == Fitting(size, rest)
                && dst[..][..at + m] == old(dst[..][..at]) + rest[..m] && Carries(text, pos, q, rest[m..])
    {
      hide Carries, ReadGroup, Midway, Fitting;
      ghost var good, head := Carries(text, pos, q, rest), dst[..][..at];
      if good { MidwayStart(text, pos, q, rest, head); }
      ok, m := true, 0;
      var more := true;
      ghost var groups := 0;
      while more && m + 3 <= size
        invariant m <= size && dst[..][..at] == head && ok && 3 * groups <= size && m <= 3 * groups && (more ==> m == 3 * groups)
        invariant good ==> Midway(text, pos, q, rest, m, head, dst[..][..at + m]) && (!more ==> m == |rest|)
        decreases more, size - m
      {
        if good { MidwayNext(text, pos, q, rest, m, head, dst[..][..at + m]); }
        ok, more, m := ReadOne(dst, at, m);
        if !ok { return; }
        if more || m > 3 * groups { groups := groups + 1; }
      }
      if good { MidwayEnd(text, pos, q, rest, m, head, dst[..][..at + m], size, groups); }
    }

    /** One turn of the loop. */
    method ReadOne(dst: array<byte>, at: nat, m0: nat) returns (ok: bool, more: bool, m: nat)
      requires at + m0 + 3 <= dst.Length
      modifies this`pos, dst
      ensures dst[..][..at] == old(dst[..][..at])
      ensures var g := ReadGroup(text, old(pos));
              && ok == !g.Malformed? && more == (g.Got? && !g.padded)
              && (if g.Got? then 1 <= |g.bytes| <= 3 && (more ==> |g.bytes| == 3) && m == m0 + |g.bytes| && pos == old(pos) + 4
                              && dst[..][..at + m] == old(dst[..][..at + m0]) + g.bytes
                  else m == m0 && pos == old(pos) && dst[..] == old(dst[..]))
    {
      var g := ReadGroup(text, pos);
      hide ReadGroup;
      ok, more, m := !g.Malformed?, false, m0;
      if g.Got? {
        pos := pos + 4;
        ghost var before := dst[..][..at + m];
        Store(dst, at + m, g.bytes);
        Prefix(dst[..], before, g.bytes, at);
        m := m + |g.bytes|;
        more := !g.padded;
      }
    }

    static lemma Prefix(d: seq<byte>, before: seq<byte>, bytes: seq<byte>, at: nat)
      requires at <= |before| && |before| + |bytes| <= |d| && d[..|before| + |bytes|] == before + bytes
      ensures d[..at] == before[..at]
    {
      assert d[..at] == d[..|before| + |bytes|][..at];
    }

    /** Deliver kept bytes; what does not fit moves to the front of the buffer. */
    method TakeKept(dst: array<byte>, at: nat, len: nat) returns (i: nat)
      requires at + len <= dst.Length && dst != buf && rem <= buf.Length
      modifies this`rem, dst, buf
      ensures i == Min(old(rem), len) && rem == old(rem) - i
      ensures dst[..][..at + i] == old(dst[..][..at]) + old(buf[..][..rem])[..i]
      ensures buf[..][..rem] == old(buf[..][..rem])[i..]
    {
      i := Min(rem, len);
      ghost var kept := buf[..][..rem];
      Store(dst, at, buf[..][..i]);
      assert kept[..i] == buf[..][..i];
      var j := 0;
      while i + j < rem
        modifies buf
        invariant i + j <= rem
        invariant forall k :: 0 <= k < j ==> buf[k] == kept[i + k]
        invariant forall k :: j <= k < rem ==> buf[k] == kept[k]
      {
        buf[j] := buf[i + j];
        j := j + 1;
      }
      rem := rem - i;
      assert buf[..][..rem] == kept[i..];
    }

    /** Read into a buffer of any size: as much of the data as there is room for, and what remains is kept. */
    method Data(dst: array<byte>, size: nat, ghost data: seq<byte>, ghost q: nat) returns (ok: bool, res: nat)
      requires size <= dst.Length && dst != buf && buf.Length == 3 && rem <= 3
      modifies this`pos, this`rem, dst, buf
      ensures rem <= 3 && res <= size
      ensures Holds(text, old(pos), q, old(buf[..][..rem]), data) ==>
                && ok && res == Min(size, |data|) && dst[..][..res] == data[..res]
                && Holds(text, pos, q, buf[..][..rem], data[res..])
    {
      hide Holds, Carries, Delivered;
      ghost var good := Holds(text, pos, q, buf[..][..rem], data);
      ok, res := true, 0;
      var len: nat, done := size, false;
      if good { DeliveredNothing(text, pos, q, buf[..][..rem], data, dst[..][..0]); }
      while len > 0 && !done
        invariant res + len == size && rem <= 3 && ok
        invariant good ==> Delivered(text, pos, q, buf[..][..rem], data, res, dst[..][..res])
        invariant good && done ==> res == Min(size, |data|)
        decreases !done, len, if rem > 0 then 0 else 1
      {
        ok, done, res := Turn(dst, res, len, size, data, q, good);
        if !ok { return; }
        len := size - res;
      }
      if good { DeliveredEnd(text, pos, q, buf[..][..rem], data, res, dst[..][..res]); }
    }

    /** One turn of the loop; `done` when there is no more data or no more room. */
    method Turn(dst: array<byte>, at: nat, len: nat, ghost size: nat, ghost data: seq<byte>, ghost q: nat, ghost good: bool)
      returns (ok: bool, done: bool, res: nat)
      requires at + len == size <= dst.Length && len > 0 && dst != buf && buf.Length == 3 && rem <= 3
      requires good ==> Delivered(text, pos, q, buf[..][..rem], data, at, dst[..][..at])
      modifies this`pos, this`rem, dst, buf
      ensures at <= res <= size && rem <= 3
      ensures ok && !done ==> res > at || (res == at && old(rem) == 0 && rem > 0)
      ensures good ==> ok && Delivered(text, pos, q, buf[..][..rem], data, res, dst[..][..res])
      ensures good && done ==> res == Min(size, |data|)
    {
      hide Holds, Carries, Delivered;
      ok, done, res := true, false, at;
      var len: nat := len;
      if rem > 0 {
        if good { DeliveredKept(text, pos, q, buf[..][..rem], data, at, dst[..][..at], Min(rem, len)); }
        var i := TakeKept(dst, at, len);
        res, len := at + i, len - i;
        if rem > 0 {
          done := true;
          if good { DeliveredEnd(text, pos, q, buf[..][..rem], data, res, dst[..][..res]); }
          return;
        }
      }
      ok, done, res := Refill(dst, res, len, size, data, q, good);
    }

    /** Decode more text: into the destination, or, when there is room for less than a group, into the buffer. */
    method Refill(dst: array<byte>, at: nat, len: nat, ghost size: nat, ghost data: seq<byte>, ghost q: nat, ghost good: bool)
      returns (ok: bool, done: bool, res: nat)
      requires at + len == size <= dst.Length && dst != buf && buf.Length == 3 && rem == 0
      requires good ==> Delivered(text, pos, q, buf[..][..rem], data, at, dst[..][..at])
      modifies this`pos, this`rem, dst, buf
      ensures at <= res <= size && rem <= 3
      ensures ok && !done ==> res > at || (res == at && rem > 0)
      ensures good ==> ok && Delivered(text, pos, q, buf[..][..rem], data, res, dst[..][..res])
      ensures good && done ==> res == |data|
    {
      hide Holds, Carries, Delivered;
      if good { DeliveredText(text, pos, q, buf[..][..rem], data, at, dst[..][..at]); }
      ghost var rest := if good then data[at..] else [];
      var k;
      res := at;
      if len >= 3 {
        ok, k := ReadBase64(dst, at, len, rest, q);
        res := at + k;
        if good { DeliveredBlock(text, pos, q, buf[..][..0], data, at, k, dst[..][..res]); }
      } else {
        ok, k := ReadBase64(buf, 0, 3, rest, q);
        rem := k;
        if good {
          assert buf[..][..k] == rest[..k];
          DeliveredGroup(text, pos, q, buf[..][..k], data, at, dst[..][..at]);
        }
      }
      done := k == 0;
    }

    /** The end of the string: everything must have been read, and then exactly the closing quote is consumed. */
    method End(ghost data: seq<byte>, ghost q: nat) returns (ok: bool)
      requires rem <= buf.Length
      modifies this`pos
      ensures Holds(text, old(pos), q, buf[..][..rem], data) ==> (ok <==> data == [])
      ensures ok ==> old(pos) < |text| && text[old(pos)] == '"' && pos == old(pos) + 1
      ensures ok && Holds(text, old(pos), q, buf[..][..rem], data) ==> old(pos) == q
    {
      ok := false;
      if Holds(text, pos, q, buf[..][..rem], data) && rem == 0 {
        assert data[0..] == data;
        FirstChar(text, pos, q, data);
      }
      if rem == 0 && pos < |text| && text[pos] == '"' {
        pos := pos + 1;
        ok := true;
      }
    }

    static lemma FirstChar(text: string, pos: nat, q: nat, data: seq<byte>)
      requires Carries(text, pos, q, data)
      ensures pos < |text| && (text[pos] == '"' <==> data == []) && (data == [] ==> pos == q)
    {
      CarriesNext(text, pos, q, data);
      if data != [] { assert Code('"') == -1; }
    }
  }

  // ----- the round trip -----

  function Flatten(pieces: seq<seq<byte>>): seq<byte> {
    if pieces == [] then [] else Flatten(pieces[..|pieces| - 1]) + pieces[|pieces| - 1]
  }

  /** Any data, written in any pieces and read into buffers of any sizes, is read back unchanged; the reader stops right after
      the closing quote, and the text is that of the data written at once. */
  method WriteAndRead(before: string, after: string, pieces: seq<seq<byte>>, sizes: nat -> nat)
    returns (result: seq<byte>, text: string, end: nat, ok: bool)
    requires forall k :: sizes(k) > 0
    ensures ok && result == Flatten(pieces)
    ensures text == before + "\"" + Encode(result) + "\"" + after && end == |text| - |after|
  {
    text := WriteAll(before, pieces);
    text := text + after;
    ghost var data := Flatten(pieces);
    ghost var q := Laid(text, before, data, after);
    result, end, ok := ReadAll(text, |before| + 1, sizes, data, q);
  }

  method WriteAll(before: string, pieces: seq<seq<byte>>) returns (text: string)
    ensures text == before + "\"" + Encode(Flatten(pieces)) + "\""
  {
    hide Encode, Written;
    var w := new BinaryWriter.Start(before);
    for k := 0 to |pieces|
      invariant w.Valid() && fresh(w) && fresh(w.buf) && w.before == before
      invariant w.given == Flatten(pieces[..k])
    {
      assert pieces[..k + 1][..k] == pieces[..k];
      w.Data(pieces[k]);
    }
    assert pieces[..|pieces|] == pieces;
    w.End();
    text := w.out;
  }

  lemma Laid(text: string, before: string, data: seq<byte>, after: string) returns (q: nat)
    requires text == before + "\"" + Encode(data) + "\"" + after
    ensures Holds(text, |before| + 1, q, [], data) && q + 1 == |text| - |after|
  {
    hide Encode;
    assert data[0..] == data;
    q := |before| + 1 + |Encode(data)|;
    assert text[|before| + 1..q] == Encode(data);
  }

  /** Read until nothing comes any more. */
  method ReadAll(text: string, start: nat, sizes: nat -> nat, ghost data: seq<byte>, ghost q: nat) returns (result: seq<byte>, end: nat, ok: bool)
    requires Holds(text, start, q, [], data) && forall k :: sizes(k) > 0
    ensures ok && result == data && end == q + 1
  {
    hide Carries, Holds;
    var r := new BinaryReader.Start(text, start);
    assert r.buf[..][..0] == [];
    result := [];
    ghost var rest := data;
    var more, turn := true, 0;
    while more
      invariant fresh(r) && fresh(r.buf) && r.buf.Length == 3 && r.rem <= 3 && r.text == text
      invariant result + rest == data && Holds(text, r.pos, q, r.buf[..][..r.rem], rest)
      invariant !more ==> rest == []
      decreases more, |rest|
    {
      var size := sizes(turn);
      var dst := new byte[size];
      var n;
      ok, n := r.Data(dst, size, rest, q);
      assert rest[..n] + rest[n..] == rest;
      result := result + dst[..][..n];
      rest := rest[n..];
      more, turn := n > 0, turn + 1;
    }
    ok := r.End(rest, q);
    end := r.pos;
  }
}
