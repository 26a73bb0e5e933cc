/** JSON strings: how the agent quotes a byte string and how it reads one back. */
module JsonString {
  import opened Wrappers
  import opened Wire

  const QUOTE: byte := 0x22
  const BACKSLASH: byte := 0x5C

  /** The table `char_escaping`: control characters, quote, backslash and DEL. */
  predicate NeedsEscape(b: byte) {
    b < 0x20 || b == QUOTE || b == BACKSLASH || b == 0x7F
  }

  // hex_digit
  function HexDigit(n: byte): byte {
    if n % 16 < 10 then 0x30 + n % 16 else 0x37 + n % 16
  }

  // write_escape_seq
  function EscapeSequence(b: byte): seq<byte> {
    if b == QUOTE || b == BACKSLASH then [BACKSLASH, b]
    else if b == 0x08 then [BACKSLASH, 0x62]
    else if b == 0x0C then [BACKSLASH, 0x66]
    else if b == 0x0A then [BACKSLASH, 0x6E]
    else if b == 0x0D then [BACKSLASH, 0x72]
    else if b == 0x09 then [BACKSLASH, 0x74]
    else [BACKSLASH, 0x75, 0x30, 0x30, HexDigit(b / 16), HexDigit(b)]
  }

  function QuoteByte(b: byte): seq<byte> {
    if NeedsEscape(b) then EscapeSequence(b) else [b]
  }

  /** The characters between the quotes. */
  function Body(s: seq<byte>): seq<byte> {
    if s == [] then [] else QuoteByte(s[0]) + Body(s[1..])
  }

  function Quoted(s: seq<byte>): seq<byte> {
    [QUOTE] + Body(s) + [QUOTE]
  }

  lemma {:induction false} BodyConcat(a: seq<byte>, b: seq<byte>)
    ensures Body(a + b) == Body(a) + Body(b)
  {
    if a == [] {
      assert a + b == b;
    } else {
      assert (a + b)[1..] == a[1..] + b;
      BodyConcat(a[1..], b);
    }
  }

  lemma {:induction false} BodyPlain(a: seq<byte>)
    requires forall i :: 0 <= i < |a| ==> !NeedsEscape(a[i])
    ensures Body(a) == a
  {
    if a != [] {
      BodyPlain(a[1..]);
    }
  }

  // read_hex_digit
  function HexValue(b: byte): (r: Option<int>)
    ensures r.Some? ==> 0 <= r.value < 16
  {
    if 0x30 <= b <= 0x39 then Some(b as int - 0x30)
    else if 0x41 <= b <= 0x46 then Some(b as int - 0x41 + 10)
    else if 0x61 <= b <= 0x66 then Some(b as int - 0x61 + 10)
    else None
  }

  // read_hex_char
  function HexChar(s: seq<byte>): (r: Option<int>)
    requires |s| == 4
    ensures r.Some? ==> 0 <= r.value < 0x1_0000
  {
    var a, b, c, d := HexValue(s[0]), HexValue(s[1]), HexValue(s[2]), HexValue(s[3]);
    if a.Some? && b.Some? && c.Some? && d.Some?
    then Some(a.value * 0x1000 + b.value * 0x100 + c.value * 0x10 + d.value) else None
  }

  /** The UTF-8 form of a 16-bit code. */
  function Utf8(code: int): seq<byte>
    requires 0 <= code < 0x1_0000
  {
    if code < 0x80 then [code as byte]
    else if code < 0x800 then [(code / 0x40 + 0xC0) as byte, (code % 0x40 + 0x80) as byte]
    else [(code / 0x1000 + 0xE0) as byte, (code / 0x40 % 0x40 + 0x80) as byte, (code % 0x40 + 0x80) as byte]
  }

  /** The bytes of a code, as UTF-8 has them: the leading bits tell how many there are, and the others are the code. */
  lemma Utf8Bits(code: int)
    requires 0 <= code < 0x1_0000
    ensures code < 0x80 ==> Utf8(code) == [code as byte]
    ensures 0x80 <= code < 0x800 ==> |Utf8(code)| == 2 && 0xC2 <= Utf8(code)[0] < 0xE0 && 0x80 <= Utf8(code)[1] < 0xC0
                                     && (Utf8(code)[0] as int - 0xC0) * 0x40 + (Utf8(code)[1] as int - 0x80) == code
    ensures 0x800 <= code ==> |Utf8(code)| == 3 && 0xE0 <= Utf8(code)[0] < 0xF0 && 0x80 <= Utf8(code)[1] < 0xC0 && 0x80 <= Utf8(code)[2] < 0xC0
                              && (Utf8(code)[0] as int - 0xE0) * 0x1000 + (Utf8(code)[1] as int - 0x80) * 0x40 + (Utf8(code)[2] as int - 0x80) == code
    ensures Utf8(0xE9) == [0xC3, 0xA9] && Utf8(0x20AC) == [0xE2, 0x82, 0xAC]
  {
  }

  /** Which bytes are escaped, and the values of hexadecimal digits, by their codes. */
  lemma Codes(b: byte)
    ensures NeedsEscape(b) <==> b <= 0x1F || b == 0x22 || b == 0x5C || b == 0x7F
    ensures HexValue(b) == if 0x30 <= b <= 0x39 then Some(b as int - 48) else if 0x41 <= b <= 0x46 then Some(b as int - 55)
                           else if 0x61 <= b <= 0x66 then Some(b as int - 87) else None
    ensures HexChar([0x31, 0x32, 0x61, 0x46]) == Some(0x12AF) && HexChar([0x47, 0x30, 0x30, 0x30]) == None
  {
  }

  /** The escape sequences, written out. */
  lemma Escapes(rest: seq<byte>)
    ensures EscapeSequence(0x22) == [0x5C, 0x22] && EscapeSequence(0x5C) == [0x5C, 0x5C]
    ensures EscapeSequence(0x08) == [0x5C, 0x62] && EscapeSequence(0x0C) == [0x5C, 0x66] && EscapeSequence(0x0A) == [0x5C, 0x6E]
    ensures EscapeSequence(0x0D) == [0x5C, 0x72] && EscapeSequence(0x09) == [0x5C, 0x74]
    ensures EscapeSequence(0x00) == [0x5C, 0x75, 0x30, 0x30, 0x30, 0x30] && EscapeSequence(0x1F) == [0x5C, 0x75, 0x30, 0x30, 0x31, 0x46]
    ensures EscapeSequence(0x7F) == [0x5C, 0x75, 0x30, 0x30, 0x37, 0x46]
    ensures ReadEscape([0x22] + rest) == Some(([0x22], rest)) && ReadEscape([0x5C] + rest) == Some(([0x5C], rest))
    ensures ReadEscape([0x2F] + rest) == Some(([0x2F], rest)) && ReadEscape([0x62] + rest) == Some(([0x08], rest))
    ensures ReadEscape([0x66] + rest) == Some(([0x0C], rest)) && ReadEscape([0x6E] + rest) == Some(([0x0A], rest))
    ensures ReadEscape([0x72] + rest) == Some(([0x0D], rest)) && ReadEscape([0x74] + rest) == Some(([0x09], rest))
  {
    assert forall c: byte :: ([c] + rest)[1..] == rest;
  }

  /** read_esc_char on the text after a backslash: the bytes it stands for and what follows it. */
  function ReadEscape(text: seq<byte>): (r: Option<(seq<byte>, seq<byte>)>)
    ensures r.Some? ==> |r.value.1| < |text|
  {
    if text == [] then None
    else
      var ch, rest := text[0], text[1..];
      if ch == QUOTE || ch == BACKSLASH || ch == 0x2F then Some(([ch], rest))
      else if ch == 0x62 then Some(([0x08], rest))
      else if ch == 0x66 then Some(([0x0C], rest))
      else if ch == 0x6E then Some(([0x0A], rest))
      else if ch == 0x72 then Some(([0x0D], rest))
      else if ch == 0x74 then Some(([0x09], rest))
      else if ch == 0x75 && |rest| >= 4 && HexChar(rest[..4]).Some? then
        Some((Utf8(HexChar(rest[..4]).value), rest[4..]))
      else None
  }

  /** Reading the characters of a string up to and including the closing quote. */
  function ReadBody(text: seq<byte>): Option<(seq<byte>, seq<byte>)>
    decreases |text|
  {
    if text == [] then None
    else if text[0] == QUOTE then Some(([], text[1..]))
    else if text[0] == BACKSLASH then
      var e := ReadEscape(text[1..]);
      if e.None? then None
      else
        var r := ReadBody(e.value.1);
        if r.None? then None else Some((e.value.0 + r.value.0, r.value.1))
    else
      var r := ReadBody(text[1..]);
      if r.None? then None else Some(([text[0]] + r.value.0, r.value.1))
  }

  lemma HexRoundTrip(b: byte)
    ensures HexChar([0x30, 0x30, HexDigit(b / 16), HexDigit(b)]) == Some(b as int)
  {
  }

  /** An escape sequence reads back as the byte it was written for. */
  lemma ReadEscapeOfEscape(b: byte, tail: seq<byte>)
    requires NeedsEscape(b)
    ensures EscapeSequence(b)[0] == BACKSLASH
    ensures ReadEscape((EscapeSequence(b) + tail)[1..]) == Some(([b], tail))
  {
    var text := (EscapeSequence(b) + tail)[1..];
    assert text == EscapeSequence(b)[1..] + tail;
    assert text[1..] == EscapeSequence(b)[2..] + tail;
    if |EscapeSequence(b)| == 6 {
      HexRoundTrip(b);
      assert text[1..][..4] == [0x30, 0x30, HexDigit(b / 16), HexDigit(b)];
      assert text[1..][4..] == tail;
    } else {
      assert text[1..] == tail;
    }
  }

  lemma ReadQuotedByte(b: byte, more: seq<byte>, value: seq<byte>, tail: seq<byte>)
    requires ReadBody(more) == Some((value, tail))
    ensures ReadBody(QuoteByte(b) + more) == Some(([b] + value, tail))
  {
    hide EscapeSequence, ReadEscape;
    var text := QuoteByte(b) + more;
    if NeedsEscape(b) {
      ReadEscapeOfEscape(b, more);
    } else {
      assert text[1..] == more;
    }
  }

  /** The same of the whole text: it begins with a quote, and what follows is read as the string, up to the closing quote. */
  lemma QuotedRoundTrip(s: seq<byte>, tail: seq<byte>)
    ensures Quoted(s) != [] && Quoted(s)[0] == 0x22 && ReadBody(Quoted(s)[1..] + tail) == Some((s, tail))
  {
    hide Body, ReadBody;
    RoundTrip(s, tail);
    assert Quoted(s)[1..] + tail == Body(s) + [QUOTE] + tail;
  }

  /** Every byte string reads back unchanged, and reading stops right after the closing quote. */
  lemma {:induction false} RoundTrip(s: seq<byte>, tail: seq<byte>)
    ensures ReadBody(Body(s) + [QUOTE] + tail) == Some((s, tail))
  {
    if s == [] {
      assert Body(s) + [QUOTE] + tail == [QUOTE] + tail;
    } else {
      var more := Body(s[1..]) + [QUOTE] + tail;
      assert Body(s) + [QUOTE] + tail == QuoteByte(s[0]) + more;
      hide Body, ReadBody, QuoteByte;
      RoundTrip(s[1..], tail);
      ReadQuotedByte(s[0], more, s[1..], tail);
      assert s == [s[0]] + s[1..];
    }
  }
}
