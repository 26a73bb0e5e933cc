/** Values made of pieces, on bytes written as numbers. */
module LocationExamples {
  import opened Wrappers
  import opened LocationBits
  import opened LocationPieces

  /** The byte of a number, the least significant bit first. */
  function B(n: nat): (b: Byte)
    ensures |b| == 8 && b[0] == (n % 2 == 1) && b[7] == (n / 128 % 2 == 1)
  {
    [n % 2 == 1, n / 2 % 2 == 1, n / 4 % 2 == 1, n / 8 % 2 == 1, n / 16 % 2 == 1, n / 32 % 2 == 1, n / 64 % 2 == 1, n / 128 % 2 == 1]
  }

  lemma SingleBits()
    ensures B(1)[0] && B(2)[1] && B(4)[2] && B(8)[3] && B(16)[4] && B(32)[5] && B(64)[6] && B(128)[7]
  {
  }

  /** Bit 0 of a buffer is the most significant one of its first byte in big-endian order, and the least significant one in
      little-endian order. */
  lemma BitOrder(a: Byte, b: Byte)
    ensures Bit([a, b], 0, true) == a[7] && Bit([a, b], 7, true) == a[0] && Bit([a, b], 8, true) == b[7] && Bit([a, b], 15, true) == b[0]
    ensures Bit([a, b], 0, false) == a[0] && Bit([a, b], 7, false) == a[7] && Bit([a, b], 8, false) == b[0] && Bit([a, b], 15, false) == b[7]
  {
  }

  /** The bits of two bytes determine them. */
  lemma SameBytes(x: seq<Byte>, y: seq<Byte>, be: bool)
    requires |x| == |y| == 2 && forall m :: 0 <= m < 16 ==> Bit(x, m, be) == Bit(y, m, be)
    ensures x == y
  {
    forall k, p | 0 <= k < 2 && 0 <= p < 8 ensures x[k][p] == y[k][p] {
      var m := 8 * k + if be then 7 - p else p;
      BitAt(k, p, be);
      assert Bit(x, m, be) == Bit(y, m, be);
    }
    assert x[0] == y[0] && x[1] == y[1];
  }

  /** Twelve bits at the beginning of two bytes of memory. */
  function Twelve(): Piece { Piece(Memory(0), 2, 0, 12, false, false) }

  function Memory2(a: Byte, b: Byte): Store { Store(map[0 := a, 1 := b], map[]) }

  /** What is read from AB C0: the number ABC in big-endian order, and the number 0AB, of the low twelve bits of C0AB, in
      little-endian order. */
  method ReadTwelve() returns (big: Option<seq<Byte>>, little: Option<seq<Byte>>)
    ensures big == Some([B(0x0A), B(0xBC)]) && little == Some([B(0xAB), B(0x00)])
  {
    var s := Memory2(B(0xAB), B(0xC0));
    hide B;
    TwelveLoaded(B(0xAB), B(0xC0), true);
    TwelveLoaded(B(0xAB), B(0xC0), false);
    hide Bit, Gather, Total, Load, Filled;
    big := ReadPieces(s, [Twelve()], true);
    BigTwelve(big.value);
    little := ReadPieces(s, [Twelve()], false);
    LittleTwelve(little.value);
  }

  lemma TwelveLoaded(a: Byte, b: Byte, be: bool)
    ensures var s := Memory2(a, b);
            && Load(s, Twelve(), be) == Some([a, b]) && AllFit(s, [Twelve()], be) && Total([Twelve()]) == 12
            && Gather(s, [Twelve()], be) == Some(Stretch([a, b], 0, 12, be))
  {
    var s, ps := Memory2(a, b), [Twelve()];
    assert ps[1..] == [];
    assert Slice(s.mem, 0, 2) == [a, b];
    hide Bit;
    assert Gather(s, ps[1..], be) == Some([]);
    assert Stretch([a, b], 0, 12, be) + [] == Stretch([a, b], 0, 12, be);
  }

  lemma BigTwelve(r: seq<Byte>)
    requires |r| == 2 && Filled(r, 4, Stretch([B(0xAB), B(0xC0)], 0, 12, true), true)
    ensures r == [B(0x0A), B(0xBC)]
  {
    var x, y := [B(0xAB), B(0xC0)], [B(0x0A), B(0xBC)];
    hide B;
    forall m | 0 <= m < 16 ensures Bit(r, m, true) == Bit(y, m, true) {
      Shifted(m);
      hide Bit;
      if m >= 4 { assert Bit(r, m, true) == Stretch(x, 0, 12, true)[m - 4]; }
    }
    SameBytes(r, y, true);
  }

  /** The bits of 0A BC are four zeros and then those of AB C0. */
  lemma Shifted(m: nat)
    requires m < 16
    ensures Bit([B(0x0A), B(0xBC)], m, true) == (m >= 4 && Bit([B(0xAB), B(0xC0)], m - 4, true))
  {
    assert B(0xAB) == [true, true, false, true, false, true, false, true] && B(0xC0) == [false, false, false, false, false, false, true, true];
    assert B(0x0A) == [false, true, false, true, false, false, false, false] && B(0xBC) == [false, false, true, true, true, true, false, true];
    hide B;
    assert m == 0 || m == 1 || m == 2 || m == 3 || m == 4 || m == 5 || m == 6 || m == 7
           || m == 8 || m == 9 || m == 10 || m == 11 || m == 12 || m == 13 || m == 14 || m == 15;
  }

  lemma LittleTwelve(r: seq<Byte>)
    requires |r| == 2 && Filled(r, 0, Stretch([B(0xAB), B(0xC0)], 0, 12, false), false)
    ensures r == [B(0xAB), B(0x00)]
  {
    forall m | 0 <= m < 16 ensures Bit(r, m, false) == Bit([B(0xAB), B(0x00)], m, false) {
      if m < 12 { assert Bit(r, m, false) == Bit([B(0xAB), B(0xC0)], m, false); }
    }
    SameBytes(r, [B(0xAB), B(0x00)], false);
  }

  /** The buffer of a register of two bytes, by its byte order and that of the value, and of one of one byte, which is narrower
      than its piece. */
  lemma Registers(a: Byte, b: Byte, bigEndian: bool, be: bool)
    ensures var p := Piece(InRegister(7), 2, 0, 0, false, false);
            && Load(Store(map[], map[7 := Register([a, b], bigEndian)]), p, be) == Some(if bigEndian == be then [a, b] else [b, a])
            && Load(Store(map[], map[7 := Register([a], bigEndian)]), p, be) == Some(if be then [ZERO, a] else [a, ZERO])
            && BitCount(p) == 16
  {
    assert Reversed([a, b]) == [b, a] && Reversed([a]) == [a];
    assert Zeros(1) + [a] == [ZERO, a] && [a] + Zeros(1) == [a, ZERO];
  }

  /** The sizes of a piece: the byte size is that given, or else what the bits need; the bit size is that given, or else all. */
  lemma Sizes(place: Place, offs: nat)
    ensures ByteSize(Piece(place, 0, 3, 6, false, false)) == 2 && ByteSize(Piece(place, 5, offs, 6, false, false)) == 5
    ensures ByteSize(Piece(place, 0, 0, 8, false, false)) == 1 && ByteSize(Piece(place, 0, 1, 8, false, false)) == 2
    ensures BitCount(Piece(place, 5, offs, 6, false, false)) == 6 && BitCount(Piece(place, 5, offs, 0, false, false)) == 40
    ensures forall b: bool, s: Store, be: bool :: Load(s, Piece(place, 5, offs, 6, true, b), be) == None && Load(s, Piece(place, 5, offs, 6, b, true), be) == None
  {
  }
}
