/** A known address: the shortest valid one among the test vectors of BIP 350, BC1SW50QGDZ25J, for
    version 16 and the program 751e. */
module Bech32Vector {
  import opened Basics
  import opened Bech32Checksum
  import opened Bech32Address
  import B = BitRegrouping

  const ADDRESS: string := "BC1SW50QGDZ25J"
  const LOWER: string := "bc1sw50qgdz25j"
  const TAIL: string := "sw50qgdz25j"
  const DATA: seq<nat> := [16, 14, 20, 15, 0, 8, 13, 2, 10, 20, 18]

  lemma FourSteps(c: bv32, v: seq<bv32>, c1: bv32, c2: bv32, c3: bv32, c4: bv32)
    requires |v| == 4
    requires Step(c, v[0]) == c1 && Step(c1, v[1]) == c2 && Step(c2, v[2]) == c3 && Step(c3, v[3]) == c4
    ensures Polymod(c, v) == c4
  {
    hide Step, Polymod;
    PolymodOfNothing(c);
    PolymodSnoc(c, [], v[0]);
    PolymodSnoc(c, [v[0]], v[1]);
    PolymodSnoc(c, [v[0], v[1]], v[2]);
    PolymodSnoc(c, [v[0], v[1], v[2]], v[3]);
    assert [] + [v[0]] == [v[0]] && [v[0]] + [v[1]] == [v[0], v[1]];
    assert [v[0], v[1]] + [v[2]] == [v[0], v[1], v[2]] && [v[0], v[1], v[2]] + [v[3]] == v;
  }

  lemma States1()
    ensures Polymod(1, [3, 3, 0, 2]) == 0x11_8c02
  {
    hide Polymod;
    FourSteps(1, [3, 3, 0, 2], 0x23, 0x463, 0x8c60, 0x11_8c02);
  }

  lemma States2()
    ensures Polymod(0x11_8c02, [3, 16, 14, 20]) == 0x3bd7_5899
  {
    hide Polymod;
    FourSteps(0x11_8c02, [3, 16, 14, 20], 0x231_8043, 0x3d5a_5fc2, 0x4ec_3eb7, 0x3bd7_5899);
  }

  lemma States3()
    ensures Polymod(0x3bd7_5899, [15, 0, 8, 13]) == 0x3d73_43c3
  {
    hide Polymod;
    FourSteps(0x3bd7_5899, [15, 0, 8, 13], 0x876_0c09, 0x1060_98da, 0x3151_2895, 0x3d73_43c3);
  }

  lemma States4()
    ensures Polymod(0x3d73_43c3, [2, 10, 20, 18]) == 0x2bc8_30a3
  {
    hide Polymod;
    FourSteps(0x3d73_43c3, [2, 10, 20, 18], 0x1cf_be9b, 0x39f7_d36a, 0x370d_25c0, 0x2bc8_30a3);
  }

  lemma HrpIs()
    ensures HrpExpand("bc") == [3, 3, 0, 2, 3]
  {
    assert High('b') == 3 && High('c') == 3 && LowPart('b') == 2 && LowPart('c') == 3;
    assert Sym(2) == 2 && Sym(3) == 3;
    hide Sym, High, LowPart;
    assert Highs("bc") == [3, 3] && Lows("bc") == [2, 3];
  }

  lemma SymbolsAre()
    ensures Small(DATA) && Syms(DATA) == [16, 14, 20, 15, 0, 8, 13, 2, 10, 20, 18]
  {
    assert Sym(16) == 16 && Sym(14) == 14 && Sym(20) == 20 && Sym(15) == 15 && Sym(0) == 0;
    assert Sym(8) == 8 && Sym(13) == 13 && Sym(2) == 2 && Sym(10) == 10 && Sym(18) == 18;
    hide Sym;
  }

  lemma StateIsConstant()
    ensures Small(DATA) && Polymod(1, HrpExpand("bc") + Syms(DATA)) == BECH32M_CONST
  {
    HrpIs();
    SymbolsAre();
    States1();
    States2();
    States3();
    States4();
    hide Polymod, HrpExpand, Syms;
    var a: seq<bv32>, b: seq<bv32>, c: seq<bv32>, d: seq<bv32> :=
      [3, 3, 0, 2], [3, 16, 14, 20], [15, 0, 8, 13], [2, 10, 20, 18];
    PolymodConcat(1, a, b);
    PolymodConcat(1, a + b, c);
    PolymodConcat(1, a + b + c, d);
    assert HrpExpand("bc") + Syms(DATA) == a + b + c + d;
  }

  lemma TailIs()
    ensures |CHARSET| == 32 && DataOf(TAIL) == Some(DATA)
    ensures forall i | 0 <= i < |TAIL| :: Plain(TAIL[i]) && TAIL[i] != '1'
  {
    CharsetPlain();
    hide DataOf;
    assert Small(DATA);
    DataOfText(DATA);
    assert TextOf(DATA) == TAIL;
  }

  lemma ProgramIs()
    ensures B.Regrouped(DATA[1..5], 5, 8, false, PROGRAM_MAX) == Some([0x75, 0x1e])
  {
    var s := DATA[1..5];
    assert s == [14, 20, 15, 0];
    EightAndFive();
    ValueIs();
    assert B.Times(4, 5) == 20 && B.Quotient(20, 8) == 2 && B.Remainder(20, 8) == 4;
    assert B.Remainder(479712, 16) == 0 && B.Quotient(479712, 16) == 0x751e;
    DigitsAre();
    hide B.Value, B.Digits, B.Quotient, B.Remainder, B.Times;
  }

  lemma EightAndFive()
    ensures B.Pow2(5) == 32 && B.Pow2(8) == 256 && B.Pow2(4) == 16
  {
    assert B.Pow2(4) == 16;
  }

  lemma ValueIs()
    ensures B.Value([14, 20, 15, 0], 5) == 479712
  {
    EightAndFive();
    assert [14, 20, 15, 0][..3] == [14, 20, 15] && [14, 20, 15][..2] == [14, 20];
    assert [14, 20][..1] == [14] && [14][..0] == [];
  }

  lemma DigitsAre()
    ensures B.Digits(0x751e, 2, 8) == [0x75, 0x1e]
  {
    EightAndFive();
    assert B.Quotient(0x751e, 256) == 0x75 && B.Remainder(0x751e, 256) == 0x1e;
    assert B.Digits(0x75, 1, 8) == [0x75];
  }

  lemma WitnessIs()
    ensures Small(DATA) && WitnessOf(DATA, BECH32M_CONST) == Some(Witness(16, [0x75, 0x1e]))
  {
    ProgramIs();
    hide B.Regrouped;
    assert DATA[1..|DATA| - 6] == DATA[1..5];
  }

  lemma LowerIs()
    ensures LOWER == "bc" + "1" + TAIL && |LOWER| == 14
  {
  }

  lemma LowerText()
    ensures Lowered(LOWER) == LOWER && Printable(LOWER) && !MixedCase(LOWER)
    ensures LastOne(LOWER, 14) == Some(2) && LOWER[..2] == "bc" && LOWER[3..] == TAIL
  {
    TailIs();
    LowerIs();
    hide Lowered, Printable, MixedCase, LastOne, DataOf;
    AddressText("bc", TAIL);
  }

  lemma LowerDecodes()
    ensures Decoded(LOWER) == Some(Witness(16, [0x75, 0x1e]))
  {
    TailIs();
    LowerIs();
    LowerText();
    StateIsConstant();
    WitnessIs();
    hide Polymod, HrpExpand, DataOf, Lowered, Printable, MixedCase, LastOne, Syms, WitnessOf, Plain, Small;
    hide LOWER, TAIL, DATA;
  }

  /** THE KNOWN ADDRESS is decoded as BIP 350 says. */
  lemma KnownAddress()
    ensures Decoded(ADDRESS) == Some(Witness(16, [0x75, 0x1e]))
  {
    LowerDecodes();
    LowerText();
    UpperIsLowered();
    hide Decoded, Lowered, Printable, MixedCase, LastOne;
    assert |ADDRESS| == |LOWER|;
    PrintableWhenLowered(ADDRESS, LOWER);
    SameWhenLowered(ADDRESS, LOWER);
  }

  lemma UpperIsLowered()
    ensures Lowered(ADDRESS) == LOWER && !MixedCase(ADDRESS)
  {
    assert forall i | 0 <= i < |ADDRESS| :: LowerChar(ADDRESS[i]) == LOWER[i];
    assert forall i | 0 <= i < |ADDRESS| :: !('a' <= ADDRESS[i] <= 'z');
  }
}
