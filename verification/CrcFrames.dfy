/** Command frames: what their last byte closes, and one frame that main/bm1370.c writes out in full. */
module CrcFrames {
  import opened Crc

  // ----- the last byte of a command frame

  /** The five bits of a byte that hold a CRC5. */
  function LowFive(byte: bv8): seq<bool> {
    BitsFrom(byte << 3, 5)
  }

  predicate IsByte(reg: bv16, byte: bv8) {
    byte as bv16 == reg && byte & 0xe0 == 0
  }

  /** The register's five bits, moved to the top of a byte. */
  predicate Raised(reg: bv16, byte: bv8) {
    byte as bv16 == (reg & 0x1f) << 3
  }

  lemma RaisedMoves(reg: bv16, byte: bv8)
    requires Raised(reg, byte)
    ensures Raised(Shifted(Crc5, reg), byte << 1)
    ensures Top(Crc5, reg) <==> byte & 0x80 != 0
  {
  }

  lemma {:induction false} BitsFromRaised(reg: bv16, byte: bv8, n: nat)
    requires Raised(reg, byte)
    ensures BitsFrom(byte, n) == TopBits(Crc5, reg, n)
    decreases n
  {
    if n > 0 {
      RaisedMoves(reg, byte);
      hide Raised, Top, Shifted;
      BitsFromRaised(Shifted(Crc5, reg), byte << 1, n - 1);
    }
  }

  lemma LowFiveIs(reg: bv16, byte: bv8)
    requires IsByte(reg, byte)
    ensures LowFive(byte) == TopBits(Crc5, reg, 5)
  {
    assert Raised(reg, byte << 3);
    hide Raised;
    BitsFromRaised(reg, byte << 3, 5);
  }

  lemma RegisterIsByte(reg: bv16)
    requires Fits(Crc5, reg)
    ensures IsByte(reg, (reg & 0xff) as bv8)
  {
  }

  lemma LowFiveTell(a: bv8, b: bv8)
    requires a & 0xe0 == 0 && b & 0xe0 == 0 && LowFive(a) == LowFive(b)
    ensures a == b
  {
    BitsFromTell(a << 3, b << 3, 5);
    hide BitsFrom;
    assert Alike(a << 3, b << 3, 5);
  }

  lemma CommandParts(header: bv8, data: seq<bv8>)
    requires |data| + 6 < 256 && header & TYPE_JOB == 0
    ensures var frame, covered := Frame(header, data), Covered(header, data);
            && |frame| == |data| + 5 && frame[..2] == [0x55, 0xaa] && frame[2] == header
            && frame[3] == LengthByte(|frame| - 2) && frame[4..|frame| - 1] == data
            && frame[2..|frame| - 1] == covered && frame[|frame| - 1] == (Crc5Of(covered) & 0xff) as bv8
  {
    hide Fold, Bits, Crc5Of, LengthByte;
    var covered := Covered(header, data);
    var frame := Frame(header, data);
    assert frame == [0x55, 0xaa] + covered + [(Crc5Of(covered) & 0xff) as bv8];
    assert frame[2..|frame| - 1] == covered;
    assert frame[4..|frame| - 1] == covered[2..] == data;
  }

  /** EVERY COMMAND FRAME CLOSES: behind the preamble stand the header, the count of the bytes behind
      the preamble, and the data; those bits and the low five of the last byte end at zero, and with
      no other such byte do they. */
  lemma CommandFrameCloses(header: bv8, data: seq<bv8>, other: bv8)
    requires |data| + 6 < 256 && header & TYPE_JOB == 0 && other & 0xe0 == 0
    ensures var frame := Frame(header, data);
            && |frame| == |data| + 5 && frame[..2] == [0x55, 0xaa] && frame[2] == header
            && frame[3] == LengthByte(|frame| - 2) && frame[4..|frame| - 1] == data
            && (var last, bits := frame[|frame| - 1], Bits(frame[2..|frame| - 1]);
                && last & 0xe0 == 0 && Fold(Crc5, 0x1f, bits + LowFive(last)) == 0
                && (Fold(Crc5, 0x1f, bits + LowFive(other)) == 0 <==> other == last))
  {
    CommandParts(header, data);
    StartFits();
    var covered := Covered(header, data);
    var bits := Bits(covered);
    var reg := Fold(Crc5, 0x1f, bits);
    var last := (reg & 0xff) as bv8;
    FoldFits(Crc5, 0x1f, bits);
    RegisterIsByte(reg);
    LowFiveIs(reg, last);
    hide Fold, Bits, Frame, Covered, LengthByte, LowFive, Fits;
    ClosesIff(bits, last);
    ClosesIff(bits, other);
    if LowFive(other) == LowFive(last) {
      LowFiveTell(other, last);
    }
  }

  lemma ClosesIff(bits: seq<bool>, byte: bv8)
    ensures Fold(Crc5, 0x1f, bits + LowFive(byte)) == 0 <==> LowFive(byte) == TopBits(Crc5, Fold(Crc5, 0x1f, bits), 5)
  {
    StartFits();
    hide Fits, Fold, BitsFrom;
    ResidueIff(Crc5, 0x1f, bits, LowFive(byte));
  }

  // ----- a known frame

  lemma FourSteps(kind: Kind, reg: bv16, bits: seq<bool>, a: bv16, b: bv16, c: bv16, d: bv16)
    requires |bits| == 4
    requires Step(kind, reg, bits[0]) == a && Step(kind, a, bits[1]) == b
    requires Step(kind, b, bits[2]) == c && Step(kind, c, bits[3]) == d
    ensures Fold(kind, reg, bits) == d
  {
    hide Step;
    FoldNext(kind, c, bits[3], []);
    FoldNext(kind, b, bits[2], [bits[3]]);
    FoldNext(kind, a, bits[1], [bits[2], bits[3]]);
    FoldNext(kind, reg, bits[0], [bits[1], bits[2], bits[3]]);
    assert [bits[3]] + [] == [bits[3]] && [bits[2]] + [bits[3]] == [bits[2], bits[3]];
    assert [bits[1]] + [bits[2], bits[3]] == [bits[1], bits[2], bits[3]];
    assert [bits[0]] + [bits[1], bits[2], bits[3]] == bits;
  }

  lemma Fold53()
    ensures Fold(Crc5, 0x1f, ByteBits(0x53)) == 0x1d
  {
    hide Fold;
    FourSteps(Crc5, 0x1f, [false, true, false, true], 0x1b, 0x16, 0x09, 0x17);
    FourSteps(Crc5, 0x17, [false, false, true, true], 0x0b, 0x16, 0x0c, 0x1d);
    FoldConcat(Crc5, 0x1f, [false, true, false, true], [false, false, true, true]);
    assert ByteBits(0x53) == [false, true, false, true] + [false, false, true, true];
  }

  lemma Fold05()
    ensures Fold(Crc5, 0x1d, ByteBits(0x05)) == 0x04
  {
    hide Fold;
    FourSteps(Crc5, 0x1d, [false, false, false, false], 0x1f, 0x1b, 0x13, 0x03);
    FourSteps(Crc5, 0x03, [false, true, false, true], 0x06, 0x09, 0x12, 0x04);
    FoldConcat(Crc5, 0x1d, [false, false, false, false], [false, true, false, true]);
    assert ByteBits(0x05) == [false, false, false, false] + [false, true, false, true];
  }

  lemma FoldZeros()
    ensures Fold(Crc5, 0x04, ByteBits(0)) == 0x11 && Fold(Crc5, 0x11, ByteBits(0)) == 0x03
  {
    hide Fold;
    var zeros := [false, false, false, false];
    FourSteps(Crc5, 0x04, zeros, 0x08, 0x10, 0x05, 0x0a);
    FourSteps(Crc5, 0x0a, zeros, 0x14, 0x0d, 0x1a, 0x11);
    FourSteps(Crc5, 0x11, zeros, 0x07, 0x0e, 0x1c, 0x1d);
    FourSteps(Crc5, 0x1d, zeros, 0x1f, 0x1b, 0x13, 0x03);
    FoldConcat(Crc5, 0x04, zeros, zeros);
    FoldConcat(Crc5, 0x11, zeros, zeros);
    assert ByteBits(0) == zeros + zeros;
  }

  lemma BitsAre()
    ensures Bits([0x53, 0x05, 0, 0]) == ByteBits(0x53) + ByteBits(0x05) + ByteBits(0) + ByteBits(0)
  {
    hide ByteBits, Bits;
    BitsOfNothing();
    var one: seq<bv8>, two: seq<bv8>, three: seq<bv8> := [0x53], [0x53, 0x05], [0x53, 0x05, 0];
    BitsSnoc([], 0x53);
    BitsSnoc(one, 0x05);
    BitsSnoc(two, 0);
    BitsSnoc(three, 0);
    var four: seq<bv8> := [0x53, 0x05, 0, 0];
    assert one == [] + [0x53] && two == one + [0x05] && three == two + [0] && four == three + [0];
    assert [] + ByteBits(0x53) == ByteBits(0x53);
  }

  lemma KnownCrc()
    ensures Crc5Of([0x53, 0x05, 0, 0]) == 0x03
  {
    BitsAre();
    Fold53();
    Fold05();
    FoldZeros();
    hide Fold, ByteBits, Bits;
    var a, b, z := ByteBits(0x53), ByteBits(0x05), ByteBits(0);
    FoldConcat(Crc5, 0x1f, a, b);
    FoldConcat(Crc5, 0x1f, a + b, z);
    FoldConcat(Crc5, 0x1f, a + b + z, z);
  }

  /** A KNOWN FRAME: "chain inactive", header 0x53 and two zero bytes. */
  lemma KnownFrame()
    ensures Frame(0x53, [0x00, 0x00]) == [0x55, 0xaa, 0x53, 0x05, 0x00, 0x00, 0x03]
  {
    KnownCrc();
    hide Crc5Of, Fold, Bits;
    assert LengthByte(5) == 0x05;
    assert Covered(0x53, [0x00, 0x00]) == [0x53, 0x05, 0x00, 0x00];
  }

  // ----- the check value of the CRC16

  lemma FoldByte(reg: bv16, byte: bv8, high: seq<bool>, low: seq<bool>, mid: bv16, end: bv16)
    requires ByteBits(byte) == high + low
    requires Fold(Crc16, reg, high) == mid && Fold(Crc16, mid, low) == end
    ensures Fold(Crc16, reg, ByteBits(byte)) == end
  {
    hide Fold;
    FoldConcat(Crc16, reg, high, low);
  }

  lemma FoldDigit1()
    ensures Fold(Crc16, 0xffff, ByteBits(0x31)) == 0xc782
  {
    hide Fold;
    FourSteps(Crc16, 0xffff, [false, false, true, true], 0xefdf, 0xcf9f, 0x9f3e, 0x3e7c);
    FourSteps(Crc16, 0x3e7c, [false, false, false, true], 0x7cf8, 0xf9f0, 0xe3c1, 0xc782);
    assert ByteBits(0x31) == [false, false, true, true] + [false, false, false, true];
    FoldByte(0xffff, 0x31, [false, false, true, true], [false, false, false, true], 0x3e7c, 0xc782);
  }

  lemma FoldDigit2()
    ensures Fold(Crc16, 0xc782, ByteBits(0x32)) == 0x3dba
  {
    hide Fold;
    FourSteps(Crc16, 0xc782, [false, false, true, true], 0x9f25, 0x2e6b, 0x4cf7, 0x89cf);
    FourSteps(Crc16, 0x89cf, [false, false, true, false], 0x03bf, 0x077e, 0x1edd, 0x3dba);
    assert ByteBits(0x32) == [false, false, true, true] + [false, false, true, false];
    FoldByte(0xc782, 0x32, [false, false, true, true], [false, false, true, false], 0x89cf, 0x3dba);
  }

  lemma FoldDigit3()
    ensures Fold(Crc16, 0x3dba, ByteBits(0x33)) == 0x5bce
  {
    hide Fold;
    FourSteps(Crc16, 0x3dba, [false, false, true, true], 0x7b74, 0xf6e8, 0xedd0, 0xdba0);
    FourSteps(Crc16, 0xdba0, [false, false, true, true], 0xa761, 0x5ee3, 0xade7, 0x5bce);
    assert ByteBits(0x33) == [false, false, true, true] + [false, false, true, true];
    FoldByte(0x3dba, 0x33, [false, false, true, true], [false, false, true, true], 0xdba0, 0x5bce);
  }

  lemma FoldDigit4()
    ensures Fold(Crc16, 0x5bce, ByteBits(0x34)) == 0x5349
  {
    hide Fold;
    FourSteps(Crc16, 0x5bce, [false, false, true, true], 0xb79c, 0x7f19, 0xee13, 0xdc26);
    FourSteps(Crc16, 0xdc26, [false, true, false, false], 0xa86d, 0x50da, 0xa1b4, 0x5349);
    assert ByteBits(0x34) == [false, false, true, true] + [false, true, false, false];
    FoldByte(0x5bce, 0x34, [false, false, true, true], [false, true, false, false], 0xdc26, 0x5349);
  }

  lemma FoldDigit5()
    ensures Fold(Crc16, 0x5349, ByteBits(0x35)) == 0x4560
  {
    hide Fold;
    FourSteps(Crc16, 0x5349, [false, false, true, true], 0xa692, 0x5d05, 0xaa2b, 0x5456);
    FourSteps(Crc16, 0x5456, [false, true, false, true], 0xa8ac, 0x5158, 0xa2b0, 0x4560);
    assert ByteBits(0x35) == [false, false, true, true] + [false, true, false, true];
    FoldByte(0x5349, 0x35, [false, false, true, true], [false, true, false, true], 0x5456, 0x4560);
  }

  lemma FoldDigit6()
    ensures Fold(Crc16, 0x4560, ByteBits(0x36)) == 0x2ef4
  {
    hide Fold;
    FourSteps(Crc16, 0x4560, [false, false, true, true], 0x8ac0, 0x05a1, 0x1b63, 0x26e7);
    FourSteps(Crc16, 0x26e7, [false, true, true, false], 0x4dce, 0x8bbd, 0x177a, 0x2ef4);
    assert ByteBits(0x36) == [false, false, true, true] + [false, true, true, false];
    FoldByte(0x4560, 0x36, [false, false, true, true], [false, true, true, false], 0x26e7, 0x2ef4);
  }

  lemma FoldDigit7()
    ensures Fold(Crc16, 0x2ef4, ByteBits(0x37)) == 0x7718
  {
    hide Fold;
    FourSteps(Crc16, 0x2ef4, [false, false, true, true], 0x5de8, 0xbbd0, 0x77a0, 0xff61);
    FourSteps(Crc16, 0xff61, [false, true, true, true], 0xeee3, 0xddc6, 0xbb8c, 0x7718);
    assert ByteBits(0x37) == [false, false, true, true] + [false, true, true, true];
    FoldByte(0x2ef4, 0x37, [false, false, true, true], [false, true, true, true], 0xff61, 0x7718);
  }

  lemma FoldDigit8()
    ensures Fold(Crc16, 0x7718, ByteBits(0x38)) == 0xa12b
  {
    hide Fold;
    FourSteps(Crc16, 0x7718, [false, false, true, true], 0xee30, 0xcc41, 0x9882, 0x3104);
    FourSteps(Crc16, 0x3104, [true, false, false, false], 0x7229, 0xe452, 0xd885, 0xa12b);
    assert ByteBits(0x38) == [false, false, true, true] + [true, false, false, false];
    FoldByte(0x7718, 0x38, [false, false, true, true], [true, false, false, false], 0x3104, 0xa12b);
  }

  lemma FoldDigit9()
    ensures Fold(Crc16, 0xa12b, ByteBits(0x39)) == 0x29b1
  {
    hide Fold;
    FourSteps(Crc16, 0xa12b, [false, false, true, true], 0x5277, 0xa4ee, 0x49dc, 0x8399);
    FourSteps(Crc16, 0x8399, [true, false, false, true], 0x0732, 0x0e64, 0x1cc8, 0x29b1);
    assert ByteBits(0x39) == [false, false, true, true] + [true, false, false, true];
    FoldByte(0xa12b, 0x39, [false, false, true, true], [true, false, false, true], 0x8399, 0x29b1);
  }

  lemma OneMoreByte(data: seq<bv8>, byte: bv8, reg: bv16, end: bv16)
    requires Crc16False(data) == reg && Fold(Crc16, reg, ByteBits(byte)) == end
    ensures Crc16False(data + [byte]) == end
  {
    hide Fold, ByteBits;
    BitsSnoc(data, byte);
    FoldConcat(Crc16, 0xffff, Bits(data), ByteBits(byte));
  }

  lemma StartOfCrc16()
    ensures Crc16False([]) == 0xffff
  {
  }

  /** A KNOWN CRC16: the digits 1 to 9 in ASCII give 0x29b1, the check value of CRC-16/CCITT-FALSE. */
  lemma KnownCrc16()
    ensures Crc16False([0x31, 0x32, 0x33, 0x34, 0x35, 0x36, 0x37, 0x38, 0x39]) == 0x29b1
  {
    hide Crc16False, Fold, ByteBits;
    StartOfCrc16();
    FoldDigit1();
    FoldDigit2();
    FoldDigit3();
    FoldDigit4();
    FoldDigit5();
    FoldDigit6();
    FoldDigit7();
    FoldDigit8();
    FoldDigit9();
    var s0: seq<bv8> := [];
    var s1: seq<bv8> := [0x31];
    var s2: seq<bv8> := [0x31, 0x32];
    var s3: seq<bv8> := [0x31, 0x32, 0x33];
    var s4: seq<bv8> := [0x31, 0x32, 0x33, 0x34];
    var s5: seq<bv8> := [0x31, 0x32, 0x33, 0x34, 0x35];
    var s6: seq<bv8> := [0x31, 0x32, 0x33, 0x34, 0x35, 0x36];
    var s7: seq<bv8> := [0x31, 0x32, 0x33, 0x34, 0x35, 0x36, 0x37];
    var s8: seq<bv8> := [0x31, 0x32, 0x33, 0x34, 0x35, 0x36, 0x37, 0x38];
    var s9: seq<bv8> := [0x31, 0x32, 0x33, 0x34, 0x35, 0x36, 0x37, 0x38, 0x39];
    OneMoreByte(s0, 0x31, 0xffff, 0xc782);
    assert s0 + [0x31] == s1;
    OneMoreByte(s1, 0x32, 0xc782, 0x3dba);
    assert s1 + [0x32] == s2;
    OneMoreByte(s2, 0x33, 0x3dba, 0x5bce);
    assert s2 + [0x33] == s3;
    OneMoreByte(s3, 0x34, 0x5bce, 0x5349);
    assert s3 + [0x34] == s4;
    OneMoreByte(s4, 0x35, 0x5349, 0x4560);
    assert s4 + [0x35] == s5;
    OneMoreByte(s5, 0x36, 0x4560, 0x2ef4);
    assert s5 + [0x36] == s6;
    OneMoreByte(s6, 0x37, 0x2ef4, 0x7718);
    assert s6 + [0x37] == s7;
    OneMoreByte(s7, 0x38, 0x7718, 0xa12b);
    assert s7 + [0x38] == s8;
    OneMoreByte(s8, 0x39, 0xa12b, 0x29b1);
    assert s8 + [0x39] == s9;
  }
}
