/** The CRC registers of main/asic_crc.c and the frames main/bm1370.c closes with them. */
module Crc {

  // ----- a register, one bit at a time, most significant bit first

  datatype Kind = Crc5 | Crc16

  function Width(kind: Kind): nat {
    if kind.Crc5? then 5 else 16
  }

  /** x^5 + x^2 + 1 and x^16 + x^12 + x^5 + 1, without their leading terms. */
  function Taps(kind: Kind): bv16 {
    if kind.Crc5? then 0x05 else 0x1021
  }

  function Mask(kind: Kind): bv16 {
    if kind.Crc5? then 0x1f else 0xffff
  }

  function Top(kind: Kind, reg: bv16): bool {
    if kind.Crc5? then reg & 0x10 != 0 else reg & 0x8000 != 0
  }

  function Shifted(kind: Kind, reg: bv16): bv16 {
    (reg << 1) & Mask(kind)
  }

  function Step(kind: Kind, reg: bv16, bit: bool): bv16 {
    if Top(kind, reg) != bit then Xor(Shifted(kind, reg), Taps(kind)) else Shifted(kind, reg)
  }

  predicate Fits(kind: Kind, reg: bv16) {
    reg & Mask(kind) == reg
  }

  function Fold(kind: Kind, reg: bv16, bits: seq<bool>): bv16
    decreases |bits|
  {
    if bits == [] then reg else Fold(kind, Step(kind, reg, bits[0]), bits[1..])
  }

  lemma {:induction false} FoldConcat(kind: Kind, reg: bv16, a: seq<bool>, b: seq<bool>)
    ensures Fold(kind, reg, a + b) == Fold(kind, Fold(kind, reg, a), b)
    decreases |a|
  {
    hide Step;
    if a == [] {
      assert a + b == b;
    } else {
      assert (a + b)[1..] == a[1..] + b;
      FoldConcat(kind, Step(kind, reg, a[0]), a[1..], b);
    }
  }

  lemma {:induction false} FoldFits(kind: Kind, reg: bv16, bits: seq<bool>)
    requires Fits(kind, reg)
    ensures Fits(kind, Fold(kind, reg, bits))
    decreases |bits|
  {
    if bits != [] {
      StepFits(kind, reg, bits[0]);
      hide Step, Fits;
      FoldFits(kind, Step(kind, reg, bits[0]), bits[1..]);
    }
  }

  lemma StepFits(kind: Kind, reg: bv16, bit: bool)
    ensures Fits(kind, Step(kind, reg, bit))
  {
  }

  function Xor(a: bv16, b: bv16): bv16 {
    a ^ b
  }

  /** The difference of two registers moves on its own, and the taps come in when exactly one of
      the two feeds them back. */
  lemma StepXor(kind: Kind, r: bv16, s: bv16, b: bool, c: bool)
    ensures (Top(kind, r) != b) == (Top(kind, s) != c) ==>
              Xor(Step(kind, r, b), Step(kind, s, c)) == Shifted(kind, Xor(r, s))
    ensures (Top(kind, r) != b) != (Top(kind, s) != c) ==>
              Xor(Step(kind, r, b), Step(kind, s, c)) == Xor(Shifted(kind, Xor(r, s)), Taps(kind))
  {
    ShiftedXor(kind, r, s);
    var x, y, t := Shifted(kind, r), Shifted(kind, s), Taps(kind);
    hide Top, Shifted, Taps, Xor;
    TapsTwice(x, y, t);
    TapsLeft(x, y, t);
    TapsRight(x, y, t);
  }

  lemma TapsLeft(x: bv16, y: bv16, t: bv16)
    ensures Xor(Xor(x, t), y) == Xor(Xor(x, y), t)
  {
  }

  lemma TapsRight(x: bv16, y: bv16, t: bv16)
    ensures Xor(x, Xor(y, t)) == Xor(Xor(x, y), t)
  {
  }

  lemma SelfInverse(x: bv16, t: bv16)
    ensures Xor(Xor(x, t), t) == x
  {
  }

  lemma TapsTwice(x: bv16, y: bv16, t: bv16)
    ensures Xor(Xor(x, t), Xor(y, t)) == Xor(x, y)
  {
    TapsRight(Xor(x, t), y, t);
    TapsLeft(x, y, t);
    SelfInverse(Xor(x, y), t);
    hide Xor;
  }

  lemma ShiftedXor(kind: Kind, r: bv16, s: bv16)
    ensures Xor(Shifted(kind, r), Shifted(kind, s)) == Shifted(kind, Xor(r, s))
  {
    if kind.Crc5? {
      assert ((r << 1) & 0x1f) ^ ((s << 1) & 0x1f) == ((r ^ s) << 1) & 0x1f;
    } else {
      assert ((r << 1) & 0xffff) ^ ((s << 1) & 0xffff) == ((r ^ s) << 1) & 0xffff;
    }
  }

  // ----- a step loses nothing

  /** A step with one bit that meets: nothing but the top bit could have been lost, and the taps,
      being odd, would show in the lowest bit. */
  lemma SameTop(kind: Kind, r: bv16, s: bv16, bit: bool)
    requires Fits(kind, r) && Fits(kind, s)
    requires Xor(Step(kind, r, bit), Step(kind, s, bit)) == 0
    ensures Xor(r, s) == 0
  {
    StepXor(kind, r, s, bit, bit);
    TapsMakeDifference(kind, Xor(r, s), 0);
    var d := Xor(r, s);
    assert Double(0) == 1;
    assert Shifted(kind, d) == 0 && Top(kind, r) == Top(kind, s);
    NothingLeft(kind, r, s);
  }

  lemma NothingLeft(kind: Kind, r: bv16, s: bv16)
    requires Fits(kind, r) && Fits(kind, s)
    requires Shifted(kind, Xor(r, s)) == 0 && Top(kind, r) == Top(kind, s)
    ensures Xor(r, s) == 0
  {
    if kind.Crc5? {
      assert r & 0x1f == r && s & 0x1f == s && ((r ^ s) << 1) & 0x1f == 0 && (r & 0x10 != 0 <==> s & 0x10 != 0)
        ==> r ^ s == 0;
    } else {
      assert ((r ^ s) << 1) & 0xffff == 0 && (r & 0x8000 != 0 <==> s & 0x8000 != 0) ==> r ^ s == 0;
    }
  }

  lemma XorZero(r: bv16, s: bv16)
    ensures Xor(r, s) == 0 <==> r == s
  {
    XorSelf(r);
    XorNothing(s);
    SelfInverse(r, s);
    hide Xor;
  }

  lemma XorSelf(r: bv16)
    ensures Xor(r, r) == 0
  {
  }

  lemma XorNothing(r: bv16)
    ensures Xor(0, r) == r
  {
  }

  lemma StepInjective(kind: Kind, r: bv16, s: bv16, bit: bool)
    requires Fits(kind, r) && Fits(kind, s)
    requires Step(kind, r, bit) == Step(kind, s, bit)
    ensures r == s
  {
    StepXor(kind, r, s, bit, bit);
    XorZero(Step(kind, r, bit), Step(kind, s, bit));
    XorZero(r, s);
    hide Step, Xor, Shifted, Fits;
    SameTop(kind, r, s, bit);
  }

  /** Registers that differ still differ after the same bits. */
  lemma {:induction false} FoldInjective(kind: Kind, r: bv16, s: bv16, bits: seq<bool>)
    requires Fits(kind, r) && Fits(kind, s) && r != s
    ensures Fold(kind, r, bits) != Fold(kind, s, bits)
    decreases |bits|
  {
    if bits != [] {
      StepFits(kind, r, bits[0]);
      StepFits(kind, s, bits[0]);
      if Step(kind, r, bits[0]) == Step(kind, s, bits[0]) {
        StepInjective(kind, r, s, bits[0]);
      }
      hide Step, Fits;
      FoldInjective(kind, Step(kind, r, bits[0]), Step(kind, s, bits[0]), bits[1..]);
    }
  }

  // ----- bursts

  /** The lowest `k` bits. */
  function Low(k: nat): bv16
    requires k <= 16
  {
    match k
    case 0 => 0
    case 1 => 0x1
    case 2 => 0x3
    case 3 => 0x7
    case 4 => 0xf
    case 5 => 0x1f
    case 6 => 0x3f
    case 7 => 0x7f
    case 8 => 0xff
    case 9 => 0x1ff
    case 10 => 0x3ff
    case 11 => 0x7ff
    case 12 => 0xfff
    case 13 => 0x1fff
    case 14 => 0x3fff
    case 15 => 0x7fff
    case 16 => 0xffff
  }

  function Double(m: bv16): bv16 {
    (m << 1) | 1
  }

  lemma LowGrows(kind: Kind, k: nat)
    requires k < Width(kind)
    ensures Low(k + 1) == Double(Low(k)) && !Top(kind, Low(k)) && Fits(kind, Low(k))
  {
  }

  /** Some bit inside `m` differs. */
  predicate Differ(r: bv16, s: bv16, m: bv16) {
    (r ^ s) & m != 0
  }

  lemma ShiftKeepsDifference(kind: Kind, d: bv16, m: bv16)
    requires d & m != 0 && !Top(kind, m) && Fits(kind, m)
    ensures Shifted(kind, d) & Double(m) != 0
  {
    if kind.Crc5? {
      assert d & m != 0 && m & 0x10 == 0 && m & 0x1f == m ==> ((d << 1) & 0x1f) & ((m << 1) | 1) != 0;
    } else {
      assert d & m != 0 && m & 0x8000 == 0 ==> ((d << 1) & 0xffff) & ((m << 1) | 1) != 0;
    }
  }

  lemma TapsMakeDifference(kind: Kind, d: bv16, m: bv16)
    ensures Xor(Shifted(kind, d), Taps(kind)) & Double(m) != 0
  {
    if kind.Crc5? {
      assert (((d << 1) & 0x1f) ^ 0x05) & ((m << 1) | 1) != 0;
    } else {
      assert (((d << 1) & 0xffff) ^ 0x1021) & ((m << 1) | 1) != 0;
    }
  }

  /** The lowest differing bit climbs by at most one place a step, or starts again at the bottom. */
  lemma StepKeepsDifference(kind: Kind, r: bv16, s: bv16, m: bv16, b: bool, c: bool)
    requires Differ(r, s, m) && !Top(kind, m) && Fits(kind, m)
    ensures Differ(Step(kind, r, b), Step(kind, s, c), Double(m))
  {
    StepXor(kind, r, s, b, c);
    ShiftKeepsDifference(kind, Xor(r, s), m);
    TapsMakeDifference(kind, Xor(r, s), m);
    hide Step, Top, Fits, Shifted, Taps, Double;
  }

  lemma StepMakesDifference(kind: Kind, r: bv16, b: bool, c: bool)
    requires b != c
    ensures Differ(Step(kind, r, b), Step(kind, r, c), 1)
  {
  }

  lemma {:induction false} BurstStays(kind: Kind, r: bv16, s: bv16, k: nat, a: seq<bool>, b: seq<bool>)
    requires |a| == |b| && k + |a| <= Width(kind)
    requires Differ(r, s, Low(k))
    ensures Fold(kind, r, a) != Fold(kind, s, b)
    decreases |a|
  {
    hide Step, Low, Double;
    if a == [] {
      assert r != s;
    } else {
      LowGrows(kind, k);
      StepKeepsDifference(kind, r, s, Low(k), a[0], b[0]);
      hide Differ;
      BurstStays(kind, Step(kind, r, a[0]), Step(kind, s, b[0]), k + 1, a[1..], b[1..]);
    }
  }

  /** From one register, different windows no longer than the register never meet. */
  lemma {:induction false} BurstSeen(kind: Kind, reg: bv16, a: seq<bool>, b: seq<bool>)
    requires |a| == |b| <= Width(kind) && a != b
    ensures Fold(kind, reg, a) != Fold(kind, reg, b)
    decreases |a|
  {
    hide Step, Differ;
    if a[0] == b[0] {
      assert a[1..] != b[1..] by {
        assert a == [a[0]] + a[1..] && b == [b[0]] + b[1..];
      }
      BurstSeen(kind, Step(kind, reg, a[0]), a[1..], b[1..]);
    } else {
      StepMakesDifference(kind, reg, a[0], b[0]);
      BurstStays(kind, Step(kind, reg, a[0]), Step(kind, reg, b[0]), 1, a[1..], b[1..]);
    }
  }

  /** EVERY BURST IS DETECTED: equal-length messages that differ only inside a window of as many
      bits as the register has never share a CRC. */
  lemma BurstDetected(kind: Kind, reg: bv16, head: seq<bool>, a: seq<bool>, b: seq<bool>, tail: seq<bool>)
    requires Fits(kind, reg) && |a| == |b| <= Width(kind)
    ensures Fold(kind, reg, head + a + tail) == Fold(kind, reg, head + b + tail) <==> a == b
  {
    if a != b {
      var mid := Fold(kind, reg, head);
      FoldFits(kind, reg, head);
      FoldFits(kind, mid, a);
      FoldFits(kind, mid, b);
      hide Fits, Fold;
      BurstSeen(kind, mid, a, b);
      FoldInjective(kind, Fold(kind, mid, a), Fold(kind, mid, b), tail);
      FoldConcat(kind, reg, head, a);
      FoldConcat(kind, reg, head, b);
      FoldConcat(kind, reg, head + a, tail);
      FoldConcat(kind, reg, head + b, tail);
    }
  }

  // ----- the register itself as a message

  /** The first `n` bits to leave the register, most significant first. */
  function TopBits(kind: Kind, reg: bv16, n: nat): (r: seq<bool>)
    ensures |r| == n
    decreases n
  {
    if n == 0 then [] else [Top(kind, reg)] + TopBits(kind, Shifted(kind, reg), n - 1)
  }

  lemma ShiftClears(kind: Kind, reg: bv16, m: bv16)
    requires Clear(reg, m)
    ensures Clear(Shifted(kind, reg), Double(m))
  {
  }

  /** All bits of `m` are zero. */
  predicate Clear(reg: bv16, m: bv16) {
    reg & m == 0
  }

  lemma ShiftFits(kind: Kind, reg: bv16)
    ensures Fits(kind, Shifted(kind, reg))
  {
  }

  lemma StepOnTop(kind: Kind, reg: bv16)
    ensures Step(kind, reg, Top(kind, reg)) == Shifted(kind, reg)
  {
  }

  lemma AllClear(kind: Kind, reg: bv16)
    requires Fits(kind, reg) && reg & Low(Width(kind)) == 0
    ensures reg == 0
  {
  }

  lemma {:induction false} OwnBitsClear(kind: Kind, reg: bv16, k: nat)
    requires k <= Width(kind) && Fits(kind, reg) && ClearBelow(reg, k)
    ensures Fold(kind, reg, TopBits(kind, reg, Width(kind) - k)) == 0
    decreases Width(kind) - k
  {
    if k == Width(kind) {
      AllClear(kind, reg);
    } else {
      hide Step, Top, Fits, Shifted, ClearBelow, TopBits, Fold;
      var next, rest := Shifted(kind, reg), Width(kind) - (k + 1);
      ShiftFits(kind, reg);
      StepOnTop(kind, reg);
      ClearGrows(kind, reg, k);
      OwnBitsClear(kind, next, k + 1);
      TopBitsNext(kind, reg, rest);
      FoldNext(kind, reg, Top(kind, reg), TopBits(kind, next, rest));
    }
  }

  /** The lowest `k` bits are zero. */
  predicate ClearBelow(reg: bv16, k: nat)
    requires k <= 16
  {
    Clear(reg, Low(k))
  }

  lemma ClearGrows(kind: Kind, reg: bv16, k: nat)
    requires k < Width(kind) && ClearBelow(reg, k)
    ensures ClearBelow(Shifted(kind, reg), k + 1)
  {
    ShiftClears(kind, reg, Low(k));
    LowGrows(kind, k);
    hide Shifted, Low, Double, Top, Fits, Clear;
  }

  lemma TopBitsNext(kind: Kind, reg: bv16, n: nat)
    ensures TopBits(kind, reg, n + 1) == [Top(kind, reg)] + TopBits(kind, Shifted(kind, reg), n)
  {
    hide Top, Shifted;
  }

  lemma FoldNext(kind: Kind, reg: bv16, bit: bool, rest: seq<bool>)
    ensures Fold(kind, reg, [bit] + rest) == Fold(kind, Step(kind, reg, bit), rest)
  {
    hide Step;
    assert ([bit] + rest)[1..] == rest;
  }

  /** THE RESIDUE: a message ends in a zero register exactly when its last bits, as many as the
      register has, are the register after all earlier bits. */
  lemma ResidueIff(kind: Kind, reg: bv16, body: seq<bool>, last: seq<bool>)
    requires Fits(kind, reg) && |last| == Width(kind)
    ensures Fold(kind, reg, body + last) == 0 <==> last == TopBits(kind, Fold(kind, reg, body), Width(kind))
  {
    var mid := Fold(kind, reg, body);
    FoldConcat(kind, reg, body, last);
    FoldFits(kind, reg, body);
    assert ClearBelow(mid, 0);
    OwnBitsClear(kind, mid, 0);
    if last != TopBits(kind, mid, Width(kind)) {
      BurstSeen(kind, mid, last, TopBits(kind, mid, Width(kind)));
    }
  }

  // ----- bytes

  function BitsFrom(byte: bv8, n: nat): (r: seq<bool>)
    ensures |r| == n
    decreases n
  {
    if n == 0 then [] else [byte & 0x80 != 0] + BitsFrom(byte << 1, n - 1)
  }

  function FirstBit(byte: bv8): bool {
    byte & 0x80 != 0
  }

  /** A byte's bits, most significant first. */
  function ByteBits(byte: bv8): seq<bool> {
    BitsFrom(byte, 8)
  }

  function Bits(data: seq<bv8>): (r: seq<bool>)
    ensures |r| == 8 * |data|
  {
    if data == [] then [] else Bits(data[..|data| - 1]) + ByteBits(data[|data| - 1])
  }

  lemma BitsSnoc(data: seq<bv8>, byte: bv8)
    ensures Bits(data + [byte]) == Bits(data) + ByteBits(byte)
  {
    assert (data + [byte])[..|data|] == data;
  }

  lemma Regroup(a: seq<bool>, b: seq<bool>, c: seq<bool>)
    ensures (a + b) + c == a + (b + c)
  {
  }

  lemma BitsOfNothing()
    ensures Bits([]) == []
  {
  }

  lemma {:induction false} BitsConcat(a: seq<bv8>, b: seq<bv8>)
    ensures Bits(a + b) == Bits(a) + Bits(b)
    decreases |b|
  {
    hide Bits, ByteBits;
    if b == [] {
      BitsOfNothing();
      assert a + b == a;
    } else {
      BitsConcatStep(a, b[..|b| - 1], b[|b| - 1]);
      BitsConcat(a, b[..|b| - 1]);
      Regroup(Bits(a), Bits(b[..|b| - 1]), ByteBits(b[|b| - 1]));
      assert b == b[..|b| - 1] + [b[|b| - 1]];
    }
  }

  lemma BitsConcatStep(a: seq<bv8>, b: seq<bv8>, last: bv8)
    ensures Bits(a + (b + [last])) == Bits(a + b) + ByteBits(last)
    ensures Bits(b + [last]) == Bits(b) + ByteBits(last)
  {
    hide Bits, ByteBits;
    BitsSnoc(a + b, last);
    BitsSnoc(b, last);
    assert a + (b + [last]) == (a + b) + [last];
  }

  lemma BitsTake(data: seq<bv8>, i: nat)
    requires i < |data|
    ensures Bits(data[..i + 1]) == Bits(data[..i]) + ByteBits(data[i])
  {
    assert data[..i + 1][..i] == data[..i];
  }

  // ----- CRC5

  /** One turn of the inner loop of `crc5`. */
  function Turn5(crc: bv8, inputBit: bv8): bv8 {
    var nextBit := ((crc >> 4) ^ inputBit) & 1;
    (((crc << 1) | nextBit) ^ (nextBit << 2)) & 0x1f
  }

  lemma Turn5IsStep(crc: bv8, byte: bv8)
    requires crc <= 0x1f
    ensures Turn5(crc, (byte >> 7) & 1) <= 0x1f
    ensures Turn5(crc, (byte >> 7) & 1) as bv16 == Step(Crc5, crc as bv16, byte & 0x80 != 0)
  {
  }

  /** `crc5`. */
  method ComputeCrc5(data: seq<bv8>) returns (crc: bv8)
    ensures crc <= 0x1f
    ensures crc as bv16 == Fold(Crc5, 0x1f, Bits(data))
  {
    hide Step, Turn5;
    crc := 0x1f;
    for i := 0 to |data|
      invariant crc <= 0x1f && crc as bv16 == Fold(Crc5, 0x1f, Bits(data[..i]))
    {
      crc := FeedByte5(crc, data[i]);
      BitsTake(data, i);
      FoldConcat(Crc5, 0x1f, Bits(data[..i]), ByteBits(data[i]));
    }
    assert data[..|data|] == data;
  }

  method FeedByte5(start: bv8, data: bv8) returns (crc: bv8)
    requires start <= 0x1f
    ensures crc <= 0x1f && crc as bv16 == Fold(Crc5, start as bv16, ByteBits(data))
  {
    hide Step, Turn5;
    crc := start;
    var byte := data;
    for bit := 0 to 8
      invariant crc <= 0x1f
      invariant Fold(Crc5, crc as bv16, BitsFrom(byte, 8 - bit)) == Fold(Crc5, start as bv16, ByteBits(data))
    {
      Turn5IsStep(crc, byte);
      var rest := BitsFrom(byte << 1, 7 - bit);
      assert BitsFrom(byte, 8 - bit) == [byte & 0x80 != 0] + rest;
      assert ([byte & 0x80 != 0] + rest)[1..] == rest;
      crc := Turn5(crc, (byte >> 7) & 1);
      byte := byte << 1;
    }
  }

  // ----- CRC16

  function Left(crc: bv16): bv16 {
    crc << 1
  }

  lemma LeftIsShifted(crc: bv16)
    ensures Left(crc) == Shifted(Crc16, crc)
  {
    assert (crc << 1) & 0xffff == crc << 1;
  }

  function Turn16(crc: bv16): bv16 {
    if crc & 0x8000 != 0 then Xor(Left(crc), 0x1021) else Left(crc)
  }

  function High(byte: bv8): bv16 {
    (byte as bv16) << 8
  }

  lemma RawMixedTop(crc: bv16, byte: bv8)
    ensures Top(Crc16, Xor(crc, High(byte))) <==> Top(Crc16, crc) != (byte & 0x80 != 0)
  {
  }

  lemma MixedTop(crc: bv16, byte: bv8)
    ensures Top(Crc16, Xor(crc, High(byte))) <==> Top(Crc16, crc) != FirstBit(byte)
  {
    RawMixedTop(crc, byte);
    hide Top, Xor, High;
  }

  lemma MixedShift(crc: bv16, byte: bv8)
    ensures Shifted(Crc16, Xor(crc, High(byte))) == Xor(Shifted(Crc16, crc), High(byte << 1))
  {
    ShiftedXor(Crc16, crc, High(byte));
    HighMoves(High(byte), byte);
    hide Xor, Shifted, High;
  }

  lemma Turn16Is(crc: bv16)
    ensures Turn16(crc) == Step(Crc16, crc, false)
  {
    LeftIsShifted(crc);
    hide Xor, Shifted, Left;
  }

  /** Shifting with the byte already mixed in is stepping with its bits one at a time. */
  lemma Turn16IsStep(crc: bv16, byte: bv8)
    ensures Turn16(Xor(crc, High(byte))) == Xor(Step(Crc16, crc, FirstBit(byte)), High(byte << 1))
  {
    hide Xor, High, Shifted, Top, Taps, Turn16, FirstBit, Step;
    var mixed, bit := Xor(crc, High(byte)), FirstBit(byte);
    Turn16Is(mixed);
    MixedTop(crc, byte);
    MixedShift(crc, byte);
    StepIs(mixed, false);
    StepIs(crc, bit);
    TapsLeft(Shifted(Crc16, crc), High(byte << 1), Taps(Crc16));
  }

  lemma StepIs(crc: bv16, bit: bool)
    ensures Top(Crc16, crc) == bit ==> Step(Crc16, crc, bit) == Shifted(Crc16, crc)
    ensures Top(Crc16, crc) != bit ==> Step(Crc16, crc, bit) == Xor(Shifted(Crc16, crc), Taps(Crc16))
  {
    hide Xor, Shifted, Top, Taps;
  }

  method FeedByte16(start: bv16, data: bv8) returns (crc: bv16)
    ensures crc == Fold(Crc16, start, ByteBits(data))
  {
    hide Step, Turn16, Xor, High, Moved, Fold, BitsFrom, FirstBit;
    crc := Xor(start, High(data));
    ghost var reg := start;
    NotMoved(data);
    for bit := 0 to 8
      invariant crc == Xor(reg, High(Moved(data, bit)))
      invariant Fold(Crc16, reg, BitsFrom(Moved(data, bit), 8 - bit)) == Fold(Crc16, start, ByteBits(data))
    {
      ghost var byte := Moved(data, bit);
      Turn16IsStep(reg, byte);
      MovedNext(data, bit);
      BitsFromNext(byte, 7 - bit);
      FoldNext(Crc16, reg, FirstBit(byte), BitsFrom(byte << 1, 7 - bit));
      crc := Turn16(crc);
      reg := Step(Crc16, reg, FirstBit(byte));
    }
    EightShiftsClear(data, reg);
    NoBits(reg, Moved(data, 8));
  }

  lemma NotMoved(byte: bv8)
    ensures Moved(byte, 0) == byte
  {
  }

  lemma MovedNext(byte: bv8, n: nat)
    ensures Moved(byte, n + 1) == Moved(byte, n) << 1
  {
  }

  lemma BitsFromNext(byte: bv8, n: nat)
    ensures BitsFrom(byte, n + 1) == [FirstBit(byte)] + BitsFrom(byte << 1, n)
  {
  }

  lemma NoBits(reg: bv16, byte: bv8)
    ensures Fold(Crc16, reg, BitsFrom(byte, 0)) == reg
  {
  }

  function Moved(byte: bv8, n: nat): bv8 {
    if n == 0 then byte else Moved(byte, n - 1) << 1
  }

  lemma EightShiftsClear(byte: bv8, reg: bv16)
    ensures Xor(reg, High(Moved(byte, 8))) == reg
  {
    assert Moved(byte, 2) == Moved(byte, 1) << 1;
    assert Moved(byte, 4) == Moved(byte, 3) << 1;
    assert Moved(byte, 6) == Moved(byte, 5) << 1;
    assert Moved(byte, 8) == Moved(byte, 7) << 1;
  }

  /** `crc16_ccitt` from any start. */
  method ComputeCrc16(data: seq<bv8>, start: bv16) returns (crc: bv16)
    ensures crc == Fold(Crc16, start, Bits(data))
  {
    hide Step;
    crc := start;
    for i := 0 to |data|
      invariant crc == Fold(Crc16, start, Bits(data[..i]))
    {
      crc := FeedByte16(crc, data[i]);
      BitsTake(data, i);
      FoldConcat(Crc16, start, Bits(data[..i]), ByteBits(data[i]));
    }
    assert data[..|data|] == data;
  }

  function HighByte(reg: bv16): bv8 {
    ((reg >> 8) & 0xff) as bv8
  }

  function LowByte(reg: bv16): bv8 {
    (reg & 0xff) as bv8
  }

  /** The big-endian bytes of a register. */
  function BigEndian(reg: bv16): seq<bv8> {
    [HighByte(reg), LowByte(reg)]
  }

  lemma {:induction false} BitsFromTop(kind: Kind, reg: bv16, byte: bv8, n: nat)
    requires kind.Crc16? && High(byte) == reg
    ensures BitsFrom(byte, n) == TopBits(kind, reg, n)
    decreases n
  {
    if n > 0 {
      HighMoves(reg, byte);
      hide High, Top, Shifted;
      BitsFromTop(kind, Shifted(kind, reg), byte << 1, n - 1);
    }
  }

  lemma HighMoves(reg: bv16, byte: bv8)
    requires High(byte) == reg
    ensures High(byte << 1) == Shifted(Crc16, reg)
    ensures Top(Crc16, reg) <==> byte & 0x80 != 0
  {
  }

  /** Only the first `n` places matter for the first `n` bits. */
  lemma {:induction false} TopBitsAgree(reg: bv16, other: bv16, n: nat)
    requires n <= 8 && Agree(reg, other, n)
    ensures TopBits(Crc16, reg, n) == TopBits(Crc16, other, n)
    decreases n
  {
    if n > 0 {
      SameHigh(reg, other, n);
      hide Agree, Top, Shifted;
      TopBitsAgree(Shifted(Crc16, reg), Shifted(Crc16, other), n - 1);
    }
  }

  predicate HighZero(d: bv16, n: nat)
    requires n <= 8
  {
    d & HighMask(n) == 0
  }

  /** The highest `n` bits are the same. */
  predicate Agree(r: bv16, s: bv16, n: nat)
    requires n <= 8
  {
    HighZero(Xor(r, s), n)
  }

  function HighMask(n: nat): bv16
    requires n <= 8
  {
    match n
    case 0 => 0
    case 1 => 0x8000
    case 2 => 0xc000
    case 3 => 0xe000
    case 4 => 0xf000
    case 5 => 0xf800
    case 6 => 0xfc00
    case 7 => 0xfe00
    case 8 => 0xff00
  }

  lemma MaskedShift(d: bv16, n: nat)
    requires 0 < n <= 8 && HighZero(d, n)
    ensures !Top(Crc16, d)
    ensures HighZero(Shifted(Crc16, d), n - 1)
  {
  }

  lemma TopXor(r: bv16, s: bv16)
    ensures Top(Crc16, Xor(r, s)) <==> Top(Crc16, r) != Top(Crc16, s)
  {
  }

  lemma SameHigh(reg: bv16, other: bv16, n: nat)
    requires 0 < n <= 8 && Agree(reg, other, n)
    ensures Top(Crc16, reg) == Top(Crc16, other)
    ensures Agree(Shifted(Crc16, reg), Shifted(Crc16, other), n - 1)
  {
    ShiftedXor(Crc16, reg, other);
    MaskedShift(Xor(reg, other), n);
    TopXor(reg, other);
    hide Xor, Top, Shifted, HighZero;
  }

  function ShiftedBy(reg: bv16, n: nat): bv16
    decreases n
  {
    if n == 0 then reg else ShiftedBy(Shifted(Crc16, reg), n - 1)
  }

  lemma {:induction false} TopBitsSplit(reg: bv16, n: nat, m: nat)
    ensures TopBits(Crc16, reg, n + m) == TopBits(Crc16, reg, n) + TopBits(Crc16, ShiftedBy(reg, n), m)
    decreases n
  {
    if n > 0 {
      hide Top, Shifted;
      TopBitsSplit(Shifted(Crc16, reg), n - 1, m);
    }
  }

  lemma ShiftedByEight(reg: bv16)
    ensures ShiftedBy(reg, 8) == High(LowByte(reg))
  {
    hide Shifted, High, LowByte, Left2;
    var r2 := Left2(reg);
    var r4 := Left2(r2);
    var r6 := Left2(r4);
    TwoShifts(reg, 6);
    TwoShifts(r2, 4);
    TwoShifts(r4, 2);
    TwoShifts(r6, 0);
    EightShifts(reg);
  }

  function Left2(r: bv16): bv16 {
    r << 2
  }

  lemma TwoShifts(r: bv16, n: nat)
    ensures ShiftedBy(r, n + 2) == ShiftedBy(Left2(r), n)
  {
    ShiftTwice(r);
    hide Shifted, Left2;
    assert ShiftedBy(r, n + 2) == ShiftedBy(Shifted(Crc16, r), n + 1);
  }

  lemma ShiftTwice(r: bv16)
    ensures Shifted(Crc16, Shifted(Crc16, r)) == Left2(r)
  {
  }

  lemma EightShifts(r: bv16)
    ensures Left2(Left2(Left2(Left2(r)))) == High(LowByte(r))
  {
  }

  /** The register leaves it in the order of its big-endian bytes. */
  lemma BigEndianBits(reg: bv16)
    ensures Bits(BigEndian(reg)) == TopBits(Crc16, reg, 16)
  {
    var hi, lo := HighByte(reg), LowByte(reg);
    HighAgrees(reg);
    ShiftedByEight(reg);
    hide High, Agree, Top, Shifted, HighByte, LowByte, BitsFrom, Bits;
    TwoBytes(hi, lo);
    BitsFromTop(Crc16, High(hi), hi, 8);
    TopBitsAgree(High(hi), reg, 8);
    BitsFromTop(Crc16, High(lo), lo, 8);
    TopBitsSplit(reg, 8, 8);
  }

  lemma TwoBytes(hi: bv8, lo: bv8)
    ensures Bits([hi, lo]) == BitsFrom(hi, 8) + BitsFrom(lo, 8)
  {
    hide BitsFrom;
    BitsSnoc([hi], lo);
    BitsSnoc([], hi);
    assert [] + [hi] == [hi] && [hi] + [lo] == [hi, lo];
  }

  lemma HighAgrees(reg: bv16)
    ensures Agree(High(HighByte(reg)), reg, 8)
  {
  }

  // ----- messages of bytes

  /** What `crc16_false` computes. */
  function Crc16False(data: seq<bv8>): bv16 {
    Fold(Crc16, 0xffff, Bits(data))
  }

  function Crc5Of(data: seq<bv8>): bv16 {
    Fold(Crc5, 0x1f, Bits(data))
  }

  /** A body followed by two bytes passes exactly when they are its CRC, high byte first. */
  lemma Crc16Residue(body: seq<bv8>, last: seq<bv8>)
    requires |last| == 2
    ensures Crc16False(body + last) == 0 <==> last == BigEndian(Crc16False(body))
  {
    var crc := Crc16False(body);
    BitsConcat(body, last);
    BigEndianBits(crc);
    StartFits();
    hide Fits, Bits, BigEndian;
    ResidueIff(Crc16, 0xffff, Bits(body), Bits(last));
    if Bits(last) == Bits(BigEndian(crc)) {
      BitsTell(last, BigEndian(crc));
    }
  }

  lemma StartFits()
    ensures Fits(Crc16, 0xffff) && Fits(Crc5, 0x1f)
  {
  }

  /** A response passes `crc5(...) == 0` exactly when its last five bits are the register after
      all earlier bits. */
  lemma Crc5Residue(data: seq<bv8>)
    requires data != []
    ensures var bits := Bits(data);
            var split := |bits| - 5;
            Crc5Of(data) == 0 <==> bits[split..] == TopBits(Crc5, Fold(Crc5, 0x1f, bits[..split]), 5)
  {
    var bits := Bits(data);
    var split := |bits| - 5;
    StartFits();
    hide Fits, Bits;
    assert bits == bits[..split] + bits[split..];
    ResidueIff(Crc5, 0x1f, bits[..split], bits[split..]);
  }

  // ----- different messages

  function High8(n: nat): bv8
    requires n <= 8
  {
    match n
    case 0 => 0
    case 1 => 0x80
    case 2 => 0xc0
    case 3 => 0xe0
    case 4 => 0xf0
    case 5 => 0xf8
    case 6 => 0xfc
    case 7 => 0xfe
    case 8 => 0xff
  }

  /** The highest `n` bits of two bytes are the same. */
  predicate Alike(a: bv8, b: bv8, n: nat)
    requires n <= 8
  {
    (a ^ b) & High8(n) == 0
  }

  lemma AlikeGrows(a: bv8, b: bv8, n: nat)
    requires 0 < n <= 8 && (a & 0x80 != 0 <==> b & 0x80 != 0) && Alike(a << 1, b << 1, n - 1)
    ensures Alike(a, b, n)
  {
  }

  lemma {:induction false} BitsFromTell(a: bv8, b: bv8, n: nat)
    requires n <= 8 && BitsFrom(a, n) == BitsFrom(b, n)
    ensures Alike(a, b, n)
    decreases n
  {
    if n > 0 {
      assert BitsFrom(a, n)[0] == BitsFrom(b, n)[0];
      assert BitsFrom(a, n)[1..] == BitsFrom(b, n)[1..];
      hide Alike;
      BitsFromTell(a << 1, b << 1, n - 1);
      AlikeGrows(a, b, n);
    }
  }

  lemma ByteBitsTell(a: bv8, b: bv8)
    requires ByteBits(a) == ByteBits(b)
    ensures a == b
  {
    BitsFromTell(a, b, 8);
    hide BitsFrom;
    assert (a ^ b) & 0xff == 0;
  }

  /** Different bytes have different bits. */
  lemma {:induction false} BitsTell(a: seq<bv8>, b: seq<bv8>)
    requires |a| == |b| && Bits(a) == Bits(b)
    ensures a == b
    decreases |a|
  {
    if a != [] {
      hide Bits, ByteBits, BitsFrom;
      LastBytesTell(a, b);
      BitsTell(a[..|a| - 1], b[..|b| - 1]);
      SameParts(a, b);
    }
  }

  lemma SameParts(a: seq<bv8>, b: seq<bv8>)
    requires |a| == |b| > 0 && a[..|a| - 1] == b[..|b| - 1] && a[|a| - 1] == b[|b| - 1]
    ensures a == b
  {
    assert a == a[..|a| - 1] + [a[|a| - 1]] && b == b[..|b| - 1] + [b[|b| - 1]];
  }

  lemma LastBytesTell(a: seq<bv8>, b: seq<bv8>)
    requires |a| == |b| > 0 && Bits(a) == Bits(b)
    ensures Bits(a[..|a| - 1]) == Bits(b[..|b| - 1]) && a[|a| - 1] == b[|b| - 1]
  {
    hide Bits, ByteBits;
    BitsLast(a);
    BitsLast(b);
    ByteBitsTell(a[|a| - 1], b[|b| - 1]);
  }

  lemma BitsLast(data: seq<bv8>)
    requires data != []
    ensures Bits(data)[..8 * (|data| - 1)] == Bits(data[..|data| - 1])
    ensures Bits(data)[8 * (|data| - 1)..] == ByteBits(data[|data| - 1])
  {
    hide ByteBits;
  }

  /** CRC16: equal-length messages that differ in one byte, or in two bytes side by side, never
      share a CRC. */
  lemma Crc16TellsTwoBytes(head: seq<bv8>, a: seq<bv8>, b: seq<bv8>, tail: seq<bv8>)
    requires |a| == |b| <= 2
    ensures Crc16False(head + a + tail) == Crc16False(head + b + tail) <==> a == b
  {
    StartFits();
    hide Bits, Fits, Fold;
    BitsConcat(head, a);
    BitsConcat(head, b);
    BitsConcat(head + a, tail);
    BitsConcat(head + b, tail);
    BurstDetected(Crc16, 0xffff, Bits(head), Bits(a), Bits(b), Bits(tail));
    if Bits(a) == Bits(b) {
      BitsTell(a, b);
    }
  }

  /** CRC5: equal-length messages that differ in one bit, or anywhere within five bits in a row,
      never share a CRC. */
  lemma Crc5TellsFiveBits(a: seq<bv8>, b: seq<bv8>, at: nat, n: nat)
    requires |a| == |b| && n <= 5 && at + n <= 8 * |a|
    requires Bits(a)[..at] == Bits(b)[..at] && Bits(a)[at + n..] == Bits(b)[at + n..]
    ensures Crc5Of(a) == Crc5Of(b) <==> a == b
  {
    StartFits();
    hide Bits, Fits, Fold;
    var x, y := Bits(a), Bits(b);
    assert x == x[..at] + x[at..at + n] + x[at + n..];
    assert y == y[..at] + y[at..at + n] + y[at + n..];
    BurstDetected(Crc5, 0x1f, x[..at], x[at..at + n], y[at..at + n], x[at + n..]);
    if x == y {
      BitsTell(a, b);
    }
  }

  // ----- frames

  const TYPE_JOB: bv8 := 0x20

  function LengthByte(n: nat): bv8
    requires n < 256
  {
    n as bv8
  }

  /** The part of a frame its CRC covers: header, length, payload. */
  function Covered(header: bv8, data: seq<bv8>): seq<bv8>
    requires |data| + 6 < 256
  {
    [header, LengthByte(|data| + if header & TYPE_JOB != 0 then 4 else 3)] + data
  }

  /** What goes out: preamble, covered part, CRC. */
  function Frame(header: bv8, data: seq<bv8>): seq<bv8>
    requires |data| + 6 < 256
  {
    var covered := Covered(header, data);
    [0x55, 0xaa] + covered +
    if header & TYPE_JOB != 0 then BigEndian(Crc16False(covered)) else [(Crc5Of(covered) & 0xff) as bv8]
  }

  /** `_send_BM1370`, up to the serial line. */
  method BuildFrame(header: bv8, data: seq<bv8>) returns (buf: array<bv8>)
    requires |data| + 6 < 256
    ensures fresh(buf) && buf[..] == Frame(header, data)
  {
    hide Fold, Bits, HighByte, LowByte, Crc16False, Crc5Of, LengthByte, Covered;
    var job := header & TYPE_JOB != 0;
    CoveredIs(header, data, job);
    buf := new bv8[if job then |data| + 6 else |data| + 5];
    buf[0], buf[1], buf[2] := 0x55, 0xaa, header;
    buf[3] := LengthByte(if job then |data| + 4 else |data| + 3);
    forall i | 0 <= i < |data| {
      buf[4 + i] := data[i];
    }
    ghost var covered := Covered(header, data);
    assert buf[2..4] == [header, LengthByte(if job then |data| + 4 else |data| + 3)];
    assert buf[4..4 + |data|] == data;
    assert buf[2..4 + |data|] == buf[2..4] + buf[4..4 + |data|] == covered;
    ghost var sent := [0x55, 0xaa] + covered;
    assert buf[..4 + |data|] == sent;
    if job {
      var crc := JobCrc(buf[2..4 + |data|]);
      buf[4 + |data|] := HighByte(crc);
      buf[5 + |data|] := LowByte(crc);
      assert buf[..] == buf[..4 + |data|] + [HighByte(crc), LowByte(crc)];
    } else {
      var crc := CommandCrc(buf[2..4 + |data|]);
      buf[4 + |data|] := crc;
      assert buf[..] == buf[..4 + |data|] + [crc];
    }
    assert buf[..4 + |data|] == sent;
  }

  lemma CoveredIs(header: bv8, data: seq<bv8>, job: bool)
    requires |data| + 6 < 256 && job == (header & TYPE_JOB != 0)
    ensures Covered(header, data) == [header, LengthByte(if job then |data| + 4 else |data| + 3)] + data
  {
    hide LengthByte;
  }

  method JobCrc(data: seq<bv8>) returns (crc: bv16)
    ensures crc == Crc16False(data)
  {
    crc := ComputeCrc16(data, 0xffff);
  }

  method CommandCrc(data: seq<bv8>) returns (crc: bv8)
    ensures crc == (Crc5Of(data) & 0xff) as bv8
  {
    crc := ComputeCrc5(data);
    Narrow(crc, Crc5Of(data));
  }

  lemma Narrow(crc: bv8, wide: bv16)
    requires crc as bv16 == wide
    ensures (wide & 0xff) as bv8 == crc
  {
  }

  /** EVERY JOB FRAME CLOSES: from header to CRC its register ends at zero, and no other last two
      bytes would do that; the length byte counts everything behind the preamble. */
  lemma JobFrameCloses(header: bv8, data: seq<bv8>, last: seq<bv8>)
    requires |data| + 6 < 256 && header & TYPE_JOB != 0 && |last| == 2
    ensures var frame := Frame(header, data);
            && |frame| == |data| + 6 && frame[..2] == [0x55, 0xaa] && frame[2] == header
            && frame[3] == LengthByte(|frame| - 2) && frame[4..|frame| - 2] == data
            && Crc16False(frame[2..]) == 0
            && (Crc16False(frame[2..|frame| - 2] + last) == 0 <==> last == frame[|frame| - 2..])
  {
    FrameParts(header, data);
    hide Fold, Bits, BigEndian, Crc16False, Frame, Covered;
    var covered := Covered(header, data);
    Crc16Residue(covered, BigEndian(Crc16False(covered)));
    Crc16Residue(covered, last);
  }

  lemma FrameParts(header: bv8, data: seq<bv8>)
    requires |data| + 6 < 256 && header & TYPE_JOB != 0
    ensures var frame, covered := Frame(header, data), Covered(header, data);
            var crc := BigEndian(Crc16False(covered));
            && |crc| == 2
            && |frame| == |data| + 6 && frame[..2] == [0x55, 0xaa] && frame[2] == header
            && frame[3] == LengthByte(|frame| - 2) && frame[4..|frame| - 2] == data
            && frame[2..|frame| - 2] == covered && frame[|frame| - 2..] == crc && frame[2..] == covered + crc
  {
    hide Fold, Bits, HighByte, LowByte, Crc16False, LengthByte;
    var covered := Covered(header, data);
    var crc := BigEndian(Crc16False(covered));
    var frame := [0x55, 0xaa] + covered + crc;
    assert frame == Frame(header, data);
    assert frame[2..] == covered + crc;
    assert frame[2..|frame| - 2] == covered;
    assert frame[4..|frame| - 2] == covered[2..] == data;
  }
}
