/** The base64 text of bytes (section 4.3.2.4 of RFC 1421): encoding and decoding group by group, with the writer's output
    buffer and the reader's limited destination. Shifts and masks are written as division and remainder. */
module Base64 {
  import opened Wire

  // ----- the alphabet -----

  function Char(n: int): (c: char)
    requires 0 <= n < 64
    ensures c != '=' && c != '"'
  {
    if n < 26 then 'A' + n as char
    else if n < 52 then 'a' + (n - 26) as char
    else if n < 62 then '0' + (n - 52) as char
    else if n == 62 then '+' else '/'
  }

  /** The value of a character, or -1. */
  function Code(c: char): (n: int)
    ensures -1 <= n < 64
  {
    if 'A' <= c <= 'Z' then (c - 'A') as int
    else if 'a' <= c <= 'z' then (c - 'a') as int + 26
    else if '0' <= c <= '9' then (c - '0') as int + 52
    else if c == '+' then 62
    else if c == '/' then 63
    else -1
  }

  lemma CodeOfChar(n: int)
    requires 0 <= n < 64
    ensures Code(Char(n)) == n
  {
  }

  /** The alphabet by the codes of its characters: the upper-case letters, the lower-case letters, the digits, plus and slash;
      no other character has a value. */
  lemma Alphabet(n: int, c: char)
    requires 0 <= n < 64
    ensures Char(n) as int == if n < 26 then 65 + n else if n < 52 then 97 + (n - 26) else if n < 62 then 48 + (n - 52)
                              else if n == 62 then 43 else 47
    ensures Code(c) == n <==> Char(n) == c
    ensures Code(c) < 0 <==> !(65 <= c as int <= 90 || 97 <= c as int <= 122 || 48 <= c as int <= 57 || c as int == 43 || c as int == 47)
  {
  }

  // ----- groups -----

  function Code0(b0: int): int { b0 / 4 }
  function Code1(b0: int, b1: int): int { b0 % 4 * 16 + b1 / 16 }
  function Code2(b1: int, b2: int): int { b1 % 16 * 4 + b2 / 64 }
  function Code3(b2: int): int { b2 % 64 }

  function Byte0(n0: int, n1: int): int { n0 * 4 + n1 / 16 }
  function Byte1(n1: int, n2: int): int { n1 % 16 * 16 + n2 / 4 }
  function Byte2(n2: int, n3: int): int { n2 % 4 * 64 + n3 }

  /** The text of the next one, two or three bytes. */
  function Group(s: seq<byte>): (t: string)
    requires s != []
    ensures |t| == 4
  {
    var b0 := s[0] as int;
    if |s| == 1 then [Char(Code0(b0)), Char(Code1(b0, 0)), '=', '=']
    else
      var b1 := s[1] as int;
      if |s| == 2 then [Char(Code0(b0)), Char(Code1(b0, b1)), Char(Code2(b1, 0)), '=']
      else
        var b2 := s[2] as int;
        [Char(Code0(b0)), Char(Code1(b0, b1)), Char(Code2(b1, b2)), Char(Code3(b2))]
  }

  /** The four codes of a group are its 24 bits, the first byte first; bytes that are not there count as zero. */
  lemma GroupBits(b0: int, b1: int, b2: int)
    requires 0 <= b0 < 256 && 0 <= b1 < 256 && 0 <= b2 < 256
    ensures Code0(b0) * 0x4_0000 + Code1(b0, b1) * 0x1000 + Code2(b1, b2) * 0x40 + Code3(b2) == b0 * 0x1_0000 + b1 * 0x100 + b2
    ensures 0 <= Code0(b0) < 64 && 0 <= Code1(b0, b1) < 64 && 0 <= Code2(b1, b2) < 64 && 0 <= Code3(b2) < 64
  {
    Bits(b0, b1, b2);
  }

  /** The examples of section 10 of RFC 4648. */
  lemma Examples()
    ensures Encode([]) == "" && Encode([0x66]) == "Zg==" && Encode([0x66, 0x6F]) == "Zm8=" && Encode([0x66, 0x6F, 0x6F]) == "Zm9v"
    ensures Encode([0x66, 0x6F, 0x6F, 0x62]) == "Zm9vYg=="
  {
    var a: seq<byte>, b: seq<byte> := [0x66, 0x6F, 0x6F], [0x62];
    assert a + b == [0x66, 0x6F, 0x6F, 0x62];
    EncodeConcat(a, b);
    assert Rest(a) == [] && Rest(b) == [] && Rest([0x66]) == [] && Rest([0x66, 0x6F]) == [];
  }

  function Min(a: nat, b: nat): nat { if a <= b then a else b }

  /** The bytes of the next group, and those after it. */
  function Head(s: seq<byte>): seq<byte> { s[..Min(3, |s|)] }

  function Rest(s: seq<byte>): seq<byte> { s[Min(3, |s|)..] }

  /** The whole text. */
  function Encode(s: seq<byte>): string {
    if s == [] then "" else Group(s) + Encode(Rest(s))
  }

  lemma {:induction false} EncodeLength(s: seq<byte>)
    ensures |Encode(s)| == 4 * ((|s| + 2) / 3)
  {
    hide Group;
    if s != [] {
      EncodeLength(Rest(s));
      OneGroupLess(|s|);
    }
  }

  lemma OneGroupLess(n: nat)
    requires n > 0
    ensures (n + 2) / 3 == 1 + (n - Min(3, n) + 2) / 3
  {
  }

  /** Whole groups can be encoded one after the other. */
  lemma {:induction false} EncodeConcat(a: seq<byte>, b: seq<byte>)
    requires |a| % 3 == 0
    ensures Encode(a + b) == Encode(a) + Encode(b)
    decreases |a|
  {
    hide Group, Encode, Rest;
    if a == [] {
      assert a + b == b;
      EncodeNone();
      assert "" + Encode(b) == Encode(b);
    } else {
      EncodeSome(a);
      RestLength(a);
      EncodeConcat(Rest(a), b);
      GroupPrefix(a, a + b);
      RestOfConcat(a, b);
      EncodeSome(a + b);
      Regroup(Group(a), Encode(Rest(a)), Encode(b));
    }
  }

  lemma EncodeNone()
    ensures Encode([]) == ""
  {
  }

  lemma EncodeSome(s: seq<byte>)
    requires s != []
    ensures Encode(s) == Group(s) + Encode(Rest(s))
  {
    hide Group, Rest;
  }

  lemma RestLength(s: seq<byte>)
    requires s != []
    ensures |Rest(s)| < |s| && (|s| % 3 == 0 ==> |Rest(s)| % 3 == 0)
  {
  }

  lemma RestOfConcat(a: seq<byte>, b: seq<byte>)
    requires a != [] && |a| % 3 == 0
    ensures Rest(a + b) == Rest(a) + b
  {
  }

  lemma Regroup(a: string, b: string, c: string)
    ensures a + (b + c) == (a + b) + c
  {
  }

  lemma GroupPrefix(a: seq<byte>, c: seq<byte>)
    requires |a| >= 3 && |c| >= 3 && a[..3] == c[..3]
    ensures Group(a) == Group(c)
  {
    assert a[0] == a[..3][0] && a[1] == a[..3][1] && a[2] == a[..3][2];
    assert c[0] == c[..3][0] && c[1] == c[..3][1] && c[2] == c[..3][2];
  }

  // ----- reading one group -----

  /** What the reader makes of the next four characters: nothing if the first one is not of the alphabet, an error if a
      later one is not, else the bytes of the group and whether padding ended it. */
  datatype Read = Stop | Malformed | Got(bytes: seq<byte>, padded: bool)

  function At(t: string, i: nat): char { if i < |t| then t[i] else '\0' }

  function ReadGroup(t: string, i: nat): (r: Read)
    ensures r.Got? ==> 1 <= |r.bytes| <= 3 && (!r.padded ==> |r.bytes| == 3)
    ensures !r.Stop? ==> i < |t|
  {
    var n0, n1, n2, n3 := Code(At(t, i)), Code(At(t, i + 1)), Code(At(t, i + 2)), Code(At(t, i + 3));
    if n0 < 0 then Stop
    else if n1 < 0 then Malformed
    else
      var x0 := Byte0(n0, n1) as byte;
      if At(t, i + 2) == '=' then Got([x0], true)
      else if n2 < 0 then Malformed
      else
        var x1 := Byte1(n1, n2) as byte;
        if At(t, i + 3) == '=' then Got([x0, x1], true)
        else if n3 < 0 then Malformed
        else Got([x0, x1, Byte2(n2, n3) as byte], false)
  }

  lemma Join4(a: int, x: int)
    requires 0 <= x < 4
    ensures (a * 4 + x) % 4 == x && (a * 4 + x) / 4 == a
  {
  }

  lemma Join16(a: int, x: int)
    requires 0 <= x < 16
    ensures (a * 16 + x) % 16 == x && (a * 16 + x) / 16 == a
  {
  }

  lemma Quotients(b: int)
    requires 0 <= b < 256
    ensures 0 <= b / 64 < 4 && 0 <= b / 16 < 16 && 0 <= b / 4 < 64 && 0 <= b % 4 < 4 && 0 <= b % 16 < 16 && 0 <= b % 64 < 64
    ensures b / 4 * 4 + b % 4 == b && b / 16 * 16 + b % 16 == b && b / 64 * 64 + b % 64 == b
  {
  }

  /** The codes of three bytes give the bytes back. */
  lemma Bits(b0: int, b1: int, b2: int)
    requires 0 <= b0 < 256 && 0 <= b1 < 256 && 0 <= b2 < 256
    ensures 0 <= Code0(b0) < 64 && 0 <= Code1(b0, b1) < 64 && 0 <= Code2(b1, b2) < 64 && 0 <= Code3(b2) < 64
    ensures Byte0(Code0(b0), Code1(b0, b1)) == b0
    ensures Byte1(Code1(b0, b1), Code2(b1, b2)) == b1
    ensures Byte2(Code2(b1, b2), Code3(b2)) == b2
  {
    Quotients(b0);
    Quotients(b1);
    Quotients(b2);
    Join16(b0 % 4, b1 / 16);
    Join4(b1 % 16, b2 / 64);
  }

  /** Reading characters of the alphabet, the last two possibly padding. */
  lemma ReadChars(t: string, i: nat, n0: int, n1: int, n2: int, n3: int)
    requires 0 <= n0 < 64 && 0 <= n1 < 64 && 0 <= n2 < 64 && 0 <= n3 < 64
    requires At(t, i) == Char(n0) && At(t, i + 1) == Char(n1)
    ensures At(t, i + 2) == '=' ==> ReadGroup(t, i) == Got([Byte0(n0, n1) as byte], true)
    ensures At(t, i + 2) == Char(n2) && At(t, i + 3) == '=' ==>
              ReadGroup(t, i) == Got([Byte0(n0, n1) as byte, Byte1(n1, n2) as byte], true)
    ensures At(t, i + 2) == Char(n2) && At(t, i + 3) == Char(n3) ==>
              ReadGroup(t, i) == Got([Byte0(n0, n1) as byte, Byte1(n1, n2) as byte, Byte2(n2, n3) as byte], false)
  {
    CodeOfChar(n0);
    CodeOfChar(n1);
    CodeOfChar(n2);
    CodeOfChar(n3);
    hide Char, Code;
  }

  /** Reading the text of a group gives its bytes. */
  lemma ReadOfGroup(t: string, i: nat, s: seq<byte>)
    requires s != [] && i + 4 <= |t| && t[i..i + 4] == Group(s)
    ensures ReadGroup(t, i) == Got(Head(s), |s| < 3)
  {
    hide Group, ReadGroup, Head, Char, Code, At, Code0, Code1, Code2, Code3, Byte0, Byte1, Byte2;
    HeadIs(s);
    GroupIs(s);
    FourChars(t, i);
    var b0 := s[0] as int;
    if |s| == 1 {
      FirstByte(b0);
      ReadChars(t, i, Code0(b0), Code1(b0, 0), 0, 0);
    } else if |s| == 2 {
      var b1 := s[1] as int;
      FirstBytes(b0, b1);
      ReadChars(t, i, Code0(b0), Code1(b0, b1), Code2(b1, 0), 0);
    } else {
      var b1, b2 := s[1] as int, s[2] as int;
      Bits(b0, b1, b2);
      ReadChars(t, i, Code0(b0), Code1(b0, b1), Code2(b1, b2), Code3(b2));
    }
  }

  lemma FourChars(t: string, i: nat)
    requires i + 4 <= |t|
    ensures t[i..i + 4] == [At(t, i), At(t, i + 1), At(t, i + 2), At(t, i + 3)]
  {
  }

  /** The characters of a group. */
  lemma GroupIs(s: seq<byte>)
    requires s != []
    ensures var b0 := s[0] as int;
            Group(s) == if |s| == 1 then [Char(Code0(b0)), Char(Code1(b0, 0)), '=', '=']
                        else if |s| == 2 then [Char(Code0(b0)), Char(Code1(b0, s[1] as int)), Char(Code2(s[1] as int, 0)), '=']
                        else [Char(Code0(b0)), Char(Code1(b0, s[1] as int)), Char(Code2(s[1] as int, s[2] as int)), Char(Code3(s[2] as int))]
  {
  }

  lemma FirstByte(b: int)
    requires 0 <= b < 256
    ensures 0 <= Code0(b) < 64 && 0 <= Code1(b, 0) < 64 && Byte0(Code0(b), Code1(b, 0)) == b
  {
    Bits(b, 0, 0);
  }

  lemma FirstBytes(b0: int, b1: int)
    requires 0 <= b0 < 256 && 0 <= b1 < 256
    ensures 0 <= Code0(b0) < 64 && 0 <= Code1(b0, b1) < 64 && 0 <= Code2(b1, 0) < 64
    ensures Byte0(Code0(b0), Code1(b0, b1)) == b0 && Byte1(Code1(b0, b1), Code2(b1, 0)) == b1
  {
    Bits(b0, b1, 0);
  }

  lemma HeadIs(s: seq<byte>)
    requires s != []
    ensures Head(s) == if |s| == 1 then [s[0]] else if |s| == 2 then [s[0], s[1]] else [s[0], s[1], s[2]]
  {
  }

  // ----- the stream -----

  /** From position `i` the text is the encoding of `rest`, then the closing quote at `q`. */
  ghost predicate Carries(t: string, i: nat, q: nat, rest: seq<byte>) {
    q == i + |Encode(rest)| && q < |t| && t[i..q] == Encode(rest) && t[q] == '"'
  }

  lemma CarriesNext(t: string, i: nat, q: nat, s: seq<byte>)
    requires Carries(t, i, q, s)
    ensures i < |t|
    ensures s == [] ==> t[i] == '"' && ReadGroup(t, i) == Stop
    ensures s != [] ==> ReadGroup(t, i) == Got(Head(s), |s| < 3) && Carries(t, i + 4, q, Rest(s))
  {
    hide Group;
    if s != [] {
      var n, m := |Encode(s)|, |Encode(Rest(s))|;
      assert n == 4 + m;
      assert t[i..i + n][..4] == t[i..i + 4] && t[i..i + n][4..] == t[i + 4..i + n];
      assert Encode(s)[..4] == Group(s) && Encode(s)[4..] == Encode(Rest(s));
      ReadOfGroup(t, i, s);
    } else {
      assert Encode(s) == "";
    }
  }

  /** How many bytes, in whole groups, fit a destination. */
  function Fitting(size: nat, s: seq<byte>): nat { Min(size / 3 * 3, |s|) }
}
