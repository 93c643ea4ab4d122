/** Segwit addresses: `payout_bech32_decode_witness` of main/stratum_payout.c, and the
    encoder of sections "Bech32" and "Segwit address format" of BIP 173, with the checksum
    constant of BIP 350, that it undoes. */
module Bech32Address {
  import opened Basics
  import opened Bech32Checksum
  import B = BitRegrouping

  const CHARSET: string := "qpzry9x8gf2tvdw0s3jn54khce6mua7l"
  const DECODE_MAX: nat := 90
  const PROGRAM_MAX: nat := 40
  const BECH32_CONST: bv32 := 1
  const BECH32M_CONST: bv32 := 0x2bc8_30a3

  datatype Witness = Witness(version: nat, program: seq<nat>)

  // ----- characters

  /** `payout_bech32_value`. */
  function CharValue(ch: char): (r: Option<nat>)
    ensures r.Some? ==> r.value < 32
  {
    IndexFrom(CHARSET, ch, 0)
  }

  /** The charset read backwards. */
  function Place(ch: char): nat {
    match ch
    case 'q' => 0 case 'p' => 1 case 'z' => 2 case 'r' => 3
    case 'y' => 4 case '9' => 5 case 'x' => 6 case '8' => 7
    case 'g' => 8 case 'f' => 9 case '2' => 10 case 't' => 11
    case 'v' => 12 case 'd' => 13 case 'w' => 14 case '0' => 15
    case 's' => 16 case '3' => 17 case 'j' => 18 case 'n' => 19
    case '5' => 20 case '4' => 21 case 'k' => 22 case 'h' => 23
    case 'c' => 24 case 'e' => 25 case '6' => 26 case 'm' => 27
    case 'u' => 28 case 'a' => 29 case '7' => 30 case 'l' => 31
    case _ => 32
  }

  lemma CharsetPlaces()
    ensures |CHARSET| == 32 && forall i | 0 <= i < 32 :: Place(CHARSET[i]) == i
  {
  }

  lemma CharsetDistinct()
    ensures |CHARSET| == 32
    ensures forall i, j | 0 <= i < j < 32 :: CHARSET[i] != CHARSET[j]
  {
    CharsetPlaces();
    hide Place;
  }

  lemma CharsetPlain()
    ensures |CHARSET| == 32
    ensures forall i | 0 <= i < 32 :: Plain(CHARSET[i]) && CHARSET[i] != '1'
  {
  }

  /** Printable and not upper-case. */
  predicate Plain(ch: char) {
    33 as char <= ch <= 126 as char && !('A' <= ch <= 'Z')
  }

  lemma CharValueOfSymbol(v: nat)
    requires v < 32
    ensures |CHARSET| == 32 && CharValue(CHARSET[v]) == Some(v)
  {
    CharsetDistinct();
    var r := CharValue(CHARSET[v]);
    assert r.Some?;
  }

  function LowerChar(ch: char): char {
    if 'A' <= ch <= 'Z' then (ch as int + 32) as char else ch
  }

  function Lowered(s: string): (r: string)
    ensures |r| == |s|
  {
    seq(|s|, i requires 0 <= i < |s| => LowerChar(s[i]))
  }

  predicate MixedCase(s: string) {
    (exists i :: 0 <= i < |s| && 'a' <= s[i] <= 'z') && (exists i :: 0 <= i < |s| && 'A' <= s[i] <= 'Z')
  }

  predicate Printable(s: string) {
    forall i | 0 <= i < |s| :: 33 as char <= s[i] <= 126 as char
  }

  /** The last '1' among the first `n` characters, if any. */
  function LastOne(s: string, n: nat): (r: Option<nat>)
    requires n <= |s|
    ensures r.Some? ==> r.value < n && s[r.value] == '1' && forall k | r.value < k < n :: s[k] != '1'
    ensures r.None? ==> forall k | 0 <= k < n :: s[k] != '1'
  {
    if n == 0 then None else if s[n - 1] == '1' then Some(n - 1) else LastOne(s, n - 1)
  }

  // ----- symbols

  function Sym(v: nat): bv32
    requires v < 32
  {
    v as bv32
  }

  lemma SymSmall(v: nat)
    requires v < 32
    ensures Sym(v) < 32
  {
  }

  lemma SymInverse(v: nat)
    requires v < 32
    ensures Sym(v) as int == v
  {
    if v < 8 {
      SymInverse0(v);
    } else if v < 16 {
      SymInverse8(v);
    } else if v < 24 {
      SymInverse16(v);
    } else {
      SymInverse24(v);
    }
  }

  lemma SymInverse0(v: nat)
    requires 0 <= v < 8
    ensures Sym(v) as int == v
  {
    assert v == 0 || v == 1 || v == 2 || v == 3 || v == 4 || v == 5 || v == 6 || v == 7;
  }

  lemma SymInverse8(v: nat)
    requires 8 <= v < 16
    ensures Sym(v) as int == v
  {
    assert v == 8 || v == 9 || v == 10 || v == 11 || v == 12 || v == 13 || v == 14 || v == 15;
  }

  lemma SymInverse16(v: nat)
    requires 16 <= v < 24
    ensures Sym(v) as int == v
  {
    assert v == 16 || v == 17 || v == 18 || v == 19 || v == 20 || v == 21 || v == 22 || v == 23;
  }

  lemma SymInverse24(v: nat)
    requires 24 <= v < 32
    ensures Sym(v) as int == v
  {
    assert v == 24 || v == 25 || v == 26 || v == 27 || v == 28 || v == 29 || v == 30 || v == 31;
  }

  lemma SymOfBits(b: bv32)
    requires b < 32
    ensures b as int < 32 && Sym(b as int) == b
  {
  }

  ghost predicate Small(data: seq<nat>) {
    forall i | 0 <= i < |data| :: data[i] < 32
  }

  ghost function Syms(data: seq<nat>): (r: seq<bv32>)
    requires Small(data)
    ensures |r| == |data| && forall i | 0 <= i < |data| :: r[i] == Sym(data[i])
  {
    seq(|data|, i requires 0 <= i < |data| => Sym(data[i]))
  }

  lemma SymsAreSymbols(data: seq<nat>)
    requires Small(data)
    ensures Symbols(Syms(data))
  {
    forall i | 0 <= i < |data| ensures Syms(data)[i] < 32 { SymSmall(data[i]); }
  }

  function High(ch: char): (r: nat)
    ensures r < 32
  {
    ch as int / 32 % 32
  }

  function LowPart(ch: char): (r: nat)
    ensures r < 32
  {
    ch as int % 32
  }

  ghost function Highs(hrp: string): (r: seq<bv32>)
    ensures |r| == |hrp| && forall i | 0 <= i < |hrp| :: r[i] == Sym(High(hrp[i]))
  {
    seq(|hrp|, i requires 0 <= i < |hrp| => Sym(High(hrp[i])))
  }

  ghost function Lows(hrp: string): (r: seq<bv32>)
    ensures |r| == |hrp| && forall i | 0 <= i < |hrp| :: r[i] == Sym(LowPart(hrp[i]))
  {
    seq(|hrp|, i requires 0 <= i < |hrp| => Sym(LowPart(hrp[i])))
  }

  /** The human-readable part as symbols: high bits, a zero, low bits. */
  ghost function HrpExpand(hrp: string): (r: seq<bv32>)
    ensures |r| == 2 * |hrp| + 1
  {
    Highs(hrp) + [0] + Lows(hrp)
  }

  /** The symbols a string of charset characters stands for. */
  ghost function DataOf(s: string): (r: Option<seq<nat>>)
    ensures r.Some? ==> |r.value| == |s| && Small(r.value)
  {
    if s == "" then Some([])
    else
      var rest := DataOf(s[..|s| - 1]);
      var last := CharValue(s[|s| - 1]);
      if rest.Some? && last.Some? then Some(rest.value + [last.value]) else None
  }

  function TextOf(data: seq<nat>): (r: string)
    requires forall i | 0 <= i < |data| :: data[i] < |CHARSET|
    ensures |r| == |data|
  {
    seq(|data|, i requires 0 <= i < |data| => CHARSET[data[i]])
  }

  // ----- decoding

  /** From the symbols after the separator and the checksum state over everything. */
  ghost function WitnessOf(data: seq<nat>, polymod: bv32): Option<Witness> {
    if polymod != BECH32_CONST && polymod != BECH32M_CONST then None
    else if |data| < 7 || data[0] > 16 then None
    else
      var program := B.Regrouped(data[1..|data| - 6], 5, 8, false, PROGRAM_MAX);
      if program.None? || |program.value| < 2 || |program.value| > PROGRAM_MAX then None
      else if data[0] == 0 && polymod != BECH32_CONST then None
      else if data[0] > 0 && polymod != BECH32M_CONST then None
      else Some(Witness(data[0], program.value))
  }

  /** What an address decodes to. */
  ghost function Decoded(address: string): Option<Witness> {
    var n := |address|;
    var lower := Lowered(address);
    var separator := LastOne(lower, n);
    if n > DECODE_MAX || n < 8 || !Printable(address) then None
    else if MixedCase(address) || separator.None? || separator.value < 1 || separator.value + 7 > n then None
    else if lower[..separator.value] != "bc" && lower[..separator.value] != "tb" then None
    else
      var data := DataOf(lower[separator.value + 1..]);
      if data.None? then None
      else WitnessOf(data.value, Polymod(1, HrpExpand(lower[..separator.value]) + Syms(data.value)))
  }

  // ----- the decoder's loops

  /** The first pass: lower-case copy, case flags and the last separator. */
  method ScanText(address: string) returns (ok: bool, lower: string, mixed: bool, separator: Option<nat>)
    ensures ok <==> Printable(address)
    ensures ok ==> lower == Lowered(address) && (mixed <==> MixedCase(address))
    ensures ok ==> separator == LastOne(lower, |lower|)
  {
    lower, separator := "", None;
    var hasLower, hasUpper := false, false;
    mixed := false;
    for i := 0 to |address|
      invariant Printable(address[..i])
      invariant |lower| == i && forall k | 0 <= k < i :: lower[k] == LowerChar(address[k])
      invariant hasLower <==> exists k :: 0 <= k < i && 'a' <= address[k] <= 'z'
      invariant hasUpper <==> exists k :: 0 <= k < i && 'A' <= address[k] <= 'Z'
      invariant IsLastOne(lower, separator)
    {
      var ch := address[i];
      if ch < 33 as char || ch > 126 as char {
        return false, lower, mixed, separator;
      }
      if 'a' <= ch <= 'z' {
        hasLower := true;
      } else if 'A' <= ch <= 'Z' {
        hasUpper := true;
      }
      lower := lower + [LowerChar(ch)];
      if lower[i] == '1' {
        separator := Some(i);
      }
    }
    ok, mixed := true, hasLower && hasUpper;
    assert lower == Lowered(address);
  }

  ghost predicate IsLastOne(s: string, at: Option<nat>) {
    if at.Some? then at.value < |s| && s[at.value] == '1' && forall k | at.value < k < |s| :: s[k] != '1'
    else forall k | 0 <= k < |s| :: s[k] != '1'
  }

  lemma PolymodNext(c: bv32, symbols: seq<bv32>, i: nat)
    requires i < |symbols|
    ensures Polymod(c, symbols[..i + 1]) == Step(Polymod(c, symbols[..i]), symbols[i])
  {
    hide Step;
    assert symbols[..i + 1][..i] == symbols[..i];
  }

  /** The checksum state after the human-readable part. */
  method HrpState(hrp: string) returns (polymod: bv32)
    ensures polymod == Polymod(1, HrpExpand(hrp))
  {
    hide Step, Sym, High, LowPart, Polymod, Highs, Lows;
    ghost var highs, lows := Highs(hrp), Lows(hrp);
    polymod := 1;
    PolymodOfNothing(1);
    assert highs[..0] == [];
    for i := 0 to |hrp|
      invariant polymod == Polymod(1, highs[..i])
    {
      PolymodNext(1, highs, i);
      polymod := PolymodStep(polymod, Sym(High(hrp[i])));
    }
    assert highs[..|hrp|] == highs;
    ghost var prefix := highs + [0];
    PolymodNext(1, prefix, |hrp|);
    assert prefix[..|hrp|] == highs && prefix[..|hrp| + 1] == prefix;
    polymod := PolymodStep(polymod, 0);
    ghost var c := polymod;
    PolymodOfNothing(c);
    assert lows[..0] == [];
    for i := 0 to |hrp|
      invariant polymod == Polymod(c, lows[..i])
    {
      PolymodNext(c, lows, i);
      polymod := PolymodStep(polymod, Sym(LowPart(hrp[i])));
    }
    assert lows[..|hrp|] == lows;
    PolymodConcat(1, prefix, lows);
  }

  /** The loop over the characters behind the separator. */
  method ReadData(text: string, start: bv32) returns (data: Option<seq<nat>>, polymod: bv32)
    ensures data == DataOf(text)
    ensures data.Some? ==> polymod == Polymod(start, Syms(data.value))
  {
    hide Step, Sym, CharValue, Polymod, Syms;
    NoSymbols(start);
    var symbols: seq<nat> := [];
    polymod := start;
    for i := 0 to |text|
      invariant DataOf(text[..i]) == Some(symbols)
      invariant polymod == Polymod(start, Syms(symbols))
    {
      assert text[..i + 1][..i] == text[..i];
      var value := CharValue(text[i]);
      if value.None? {
        NoData(text, i + 1);
        return None, polymod;
      }
      polymod := PolymodStep(polymod, Sym(value.value));
      OneMoreSymbol(start, symbols, value.value);
      symbols := symbols + [value.value];
    }
    assert text[..|text|] == text;
    data := Some(symbols);
  }

  lemma NoSymbols(start: bv32)
    ensures Polymod(start, Syms([])) == start
  {
  }

  lemma OneMoreSymbol(start: bv32, symbols: seq<nat>, v: nat)
    requires Small(symbols) && v < 32
    ensures Small(symbols + [v])
    ensures Polymod(start, Syms(symbols + [v])) == Step(Polymod(start, Syms(symbols)), Sym(v))
  {
    hide Step, Sym;
    assert Syms(symbols + [v])[..|symbols|] == Syms(symbols);
  }

  lemma {:induction false} NoData(text: string, n: nat)
    requires n <= |text| && DataOf(text[..n]).None?
    ensures DataOf(text).None?
    decreases |text| - n
  {
    if n == |text| {
      assert text[..n] == text;
    } else {
      assert text[..n + 1][..n] == text[..n];
      NoData(text, n + 1);
    }
  }

  /** Checksum, version and program once every character has been read. */
  method ReadWitness(data: seq<nat>, polymod: bv32) returns (r: Option<Witness>)
    ensures r == WitnessOf(data, polymod)
  {
    if polymod != BECH32_CONST && polymod != BECH32M_CONST {
      return None;
    }
    if |data| < 7 || data[0] > 16 {
      return None;
    }
    var version := data[0];
    var program := B.ConvertBits(data[1..|data| - 6], 5, 8, false, PROGRAM_MAX);
    if program.None? || |program.value| < 2 || |program.value| > PROGRAM_MAX {
      return None;
    }
    if (version == 0 && polymod != BECH32_CONST) || (version > 0 && polymod != BECH32M_CONST) {
      return None;
    }
    r := Some(Witness(version, program.value));
  }

  /** `payout_bech32_decode_witness`. */
  method DecodeWitness(address: string) returns (r: Option<Witness>)
    ensures r == Decoded(address)
  {
    hide Polymod, HrpExpand, DataOf, Lowered, Printable, MixedCase, LastOne, WitnessOf;
    if |address| > DECODE_MAX || |address| < 8 {
      return None;
    }
    var ok, lower, mixed, separator := ScanText(address);
    if !ok || mixed || separator.None? || separator.value < 1 || separator.value + 7 > |address| {
      return None;
    }
    var hrp := lower[..separator.value];
    if !(hrp == "bc" || hrp == "tb") {
      return None;
    }
    var polymod := HrpState(hrp);
    var data;
    data, polymod := ReadData(lower[separator.value + 1..], polymod);
    if data.None? {
      return None;
    }
    PolymodConcat(1, HrpExpand(hrp), Syms(data.value));
    r := ReadWitness(data.value, polymod);
  }

  // ----- the reference encoder and its inverse

  ghost function Ints(symbols: seq<bv32>): (r: seq<nat>)
    requires Symbols(symbols)
    ensures |r| == |symbols| && forall i | 0 <= i < |symbols| :: r[i] == symbols[i] as int
  {
    seq(|symbols|, i requires 0 <= i < |symbols| => symbols[i] as int)
  }

  lemma SymsOfInts(symbols: seq<bv32>)
    requires Symbols(symbols)
    ensures Small(Ints(symbols)) && Syms(Ints(symbols)) == symbols
  {
    forall i | 0 <= i < |symbols| ensures symbols[i] as int < 32 && Sym(symbols[i] as int) == symbols[i] {
      SymOfBits(symbols[i]);
    }
    assert Small(Ints(symbols));
    assert forall i | 0 <= i < |symbols| :: Syms(Ints(symbols))[i] == symbols[i];
  }

  ghost predicate Encodable(hrp: string, version: nat, program: seq<nat>) {
    && (hrp == "bc" || hrp == "tb") && version <= 16
    && 2 <= |program| <= PROGRAM_MAX && B.Fits(program, 8)
  }

  function ConstFor(version: nat): bv32 {
    if version == 0 then BECH32_CONST else BECH32M_CONST
  }

  /** Version and program as symbols. */
  ghost function Payload(version: nat, program: seq<nat>): (r: seq<nat>)
    requires version <= 16 && |program| <= PROGRAM_MAX && B.Fits(program, 8)
    ensures Small(r) && r != [] && 8 * |program| <= 5 * (|r| - 1) < 8 * |program| + 5
    ensures r[0] == version
    ensures B.Regrouped(r[1..], 5, 8, false, PROGRAM_MAX) == Some(program)
  {
    B.PadThenRegroup(program, 2 * PROGRAM_MAX, PROGRAM_MAX);
    FiveBits();
    var padded := B.Regrouped(program, 8, 5, true, 2 * PROGRAM_MAX).value;
    assert ([version] + padded)[1..] == padded;
    [version] + padded
  }

  lemma FiveBits()
    ensures B.Pow2(5) == 32
  {
    assert B.Pow2(4) == 16;
  }

  ghost function StateAfter(hrp: string, data: seq<nat>): bv32
    requires Small(data)
  {
    Polymod(1, HrpExpand(hrp) + Syms(data))
  }

  lemma HrpSymbols(hrp: string)
    ensures Symbols(HrpExpand(hrp))
  {
    hide Sym, High, LowPart;
    forall i | 0 <= i < |hrp| ensures Highs(hrp)[i] < 32 && Lows(hrp)[i] < 32 {
      SymSmall(High(hrp[i]));
      SymSmall(LowPart(hrp[i]));
    }
    SymbolsJoined(Highs(hrp), Lows(hrp));
  }

  lemma SymbolsJoined(a: seq<bv32>, b: seq<bv32>)
    requires Symbols(a) && Symbols(b)
    ensures Symbols(a + [0] + b)
  {
  }

  lemma StateAfterRange(hrp: string, data: seq<nat>)
    requires Small(data)
    ensures StateAfter(hrp, data) < 0x4000_0000 && Symbols(HrpExpand(hrp) + Syms(data))
  {
    HrpSymbols(hrp);
    SymsAreSymbols(data);
    PolymodRange(1, HrpExpand(hrp) + Syms(data));
  }

  lemma ConstRange(version: nat)
    ensures ConstFor(version) < 0x4000_0000
  {
  }

  /** Payload and checksum symbols. */
  ghost function Checked(hrp: string, data: seq<nat>, target: bv32): (r: seq<nat>)
    requires Small(data) && target < 0x4000_0000
    ensures Small(r) && |r| == |data| + 6 && r[..|data|] == data
  {
    var c := StateAfter(hrp, data);
    StateAfterRange(hrp, data);
    CheckSymbolsClose(c, target);
    SymsOfInts(CheckSymbols(c, target));
    data + Ints(CheckSymbols(c, target))
  }

  lemma SymsConcat(a: seq<nat>, b: seq<nat>)
    requires Small(a) && Small(b)
    ensures Small(a + b) && Syms(a + b) == Syms(a) + Syms(b)
  {
    hide Sym;
  }

  lemma CheckedState(hrp: string, data: seq<nat>, target: bv32)
    requires Small(data) && target < 0x4000_0000
    ensures StateAfter(hrp, Checked(hrp, data, target)) == target
  {
    hide Polymod, CheckSymbols, HrpExpand, Sym, Symbols;
    var c := StateAfter(hrp, data);
    StateAfterRange(hrp, data);
    CheckSymbolsClose(c, target);
    var check := CheckSymbols(c, target);
    SymsOfInts(check);
    SymsConcat(data, Ints(check));
    PolymodConcat(1, HrpExpand(hrp) + Syms(data), check);
    assert HrpExpand(hrp) + Syms(data) + check == HrpExpand(hrp) + (Syms(data) + check);
  }

  /** The address of a witness program. */
  ghost function Encoded(hrp: string, version: nat, program: seq<nat>): string
    requires Encodable(hrp, version, program)
  {
    ConstRange(version);
    CharsetPlain();
    hrp + "1" + TextOf(Checked(hrp, Payload(version, program), ConstFor(version)))
  }

  lemma {:induction false} DataOfText(data: seq<nat>)
    requires Small(data) && |CHARSET| == 32
    ensures DataOf(TextOf(data)) == Some(data)
  {
    if data == [] {
    } else {
      var n := |data| - 1;
      CharValueOfSymbol(data[n]);
      DataOfText(data[..n]);
      assert TextOf(data)[..n] == TextOf(data[..n]);
      assert TextOf(data)[n] == CHARSET[data[n]];
      assert data[..n] + [data[n]] == data;
    }
  }

  lemma PlainText(s: string)
    requires forall i | 0 <= i < |s| :: Plain(s[i])
    ensures Lowered(s) == s && Printable(s) && !MixedCase(s)
  {
  }

  lemma SeparatorFound(hrp: string, tail: string)
    requires |hrp| == 2 && forall i | 0 <= i < |tail| :: tail[i] != '1'
    ensures var s := hrp + "1" + tail;
            LastOne(s, |s|) == Some(2) && s[..2] == hrp && s[3..] == tail
  {
    var s := hrp + "1" + tail;
    assert s[2] == '1';
    assert forall k | 2 < k < |s| :: s[k] == tail[k - 3];
  }

  lemma AddressText(hrp: string, tail: string)
    requires hrp == "bc" || hrp == "tb"
    requires |CHARSET| == 32 && forall i | 0 <= i < |tail| :: Plain(tail[i]) && tail[i] != '1'
    ensures var s := hrp + "1" + tail;
            && Lowered(s) == s && Printable(s) && !MixedCase(s)
            && LastOne(s, |s|) == Some(2) && s[..2] == hrp && s[3..] == tail
  {
    SeparatorFound(hrp, tail);
    PlainText(hrp + "1" + tail);
  }

  /** Decoding undoes the encoder, for every network, version and program. */
  lemma DecodeUndoesEncode(hrp: string, version: nat, program: seq<nat>)
    requires Encodable(hrp, version, program)
    ensures Decoded(Encoded(hrp, version, program)) == Some(Witness(version, program))
  {
    hide Polymod, HrpExpand, Lowered, MixedCase, Printable, LastOne, DataOf, TextOf, Checked, StateAfter, WitnessOf;
    ConstRange(version);
    CharsetPlain();
    var data := Payload(version, program);
    var all := Checked(hrp, data, ConstFor(version));
    var tail := TextOf(all);
    TextIsPlain(all);
    AddressText(hrp, tail);
    DataOfText(all);
    CheckedState(hrp, data, ConstFor(version));
    StateIs(hrp, all);
    PayloadDecodes(version, program, all);
  }

  /** The symbols and the version's constant give the witness back. */
  lemma PayloadDecodes(version: nat, program: seq<nat>, all: seq<nat>)
    requires version <= 16 && 2 <= |program| <= PROGRAM_MAX && B.Fits(program, 8)
    requires |all| == |Payload(version, program)| + 6 && all[..|all| - 6] == Payload(version, program)
    ensures WitnessOf(all, ConstFor(version)) == Some(Witness(version, program))
  {
    hide Payload;
    var data := Payload(version, program);
    assert all[1..|all| - 6] == all[..|all| - 6][1..] == data[1..];
    assert all[0] == all[..|all| - 6][0] == version;
  }

  lemma StateIs(hrp: string, data: seq<nat>)
    requires Small(data)
    ensures StateAfter(hrp, data) == Polymod(1, HrpExpand(hrp) + Syms(data))
  {
  }

  lemma TextIsPlain(data: seq<nat>)
    requires Small(data) && |CHARSET| == 32
    ensures forall i | 0 <= i < |data| :: Plain(TextOf(data)[i]) && TextOf(data)[i] != '1'
  {
    CharsetPlain();
  }

  // ----- single errors

  lemma {:induction false} DataOfAt(s: string, k: nat)
    requires DataOf(s).Some? && k < |s|
    ensures CharValue(s[k]) == Some(DataOf(s).value[k])
  {
    if k < |s| - 1 {
      DataOfAt(s[..|s| - 1], k);
    }
  }

  lemma CharValueInjective(a: char, b: char)
    requires CharValue(a).Some? && CharValue(a) == CharValue(b)
    ensures a == b
  {
  }

  /** Two strings of symbols that differ in one character leave different checksum states. */
  lemma DifferentStates(hrp: string, a: string, b: string, k: nat)
    requires DataOf(a).Some? && DataOf(b).Some? && |a| == |b| && k < |a|
    requires a[k] != b[k] && forall i | 0 <= i < |a| && i != k :: a[i] == b[i]
    ensures StateAfter(hrp, DataOf(a).value) != StateAfter(hrp, DataOf(b).value)
    ensures k > 0 ==> DataOf(a).value[0] == DataOf(b).value[0]
  {
    hide Polymod, HrpExpand, DataOf, CharValue;
    var x, y := DataOf(a).value, DataOf(b).value;
    forall i | 0 <= i < |a| ensures x[i] == y[i] <==> i != k {
      DataOfAt(a, i);
      DataOfAt(b, i);
      if i == k && x[i] == y[i] { CharValueInjective(a[i], b[i]); }
    }
    StateAfterRange(hrp, x);
    StateAfterRange(hrp, y);
    var h := HrpExpand(hrp);
    var u, v := h + Syms(x), h + Syms(y);
    forall i | 0 <= i < |u| ensures u[i] == v[i] <==> i != |h| + k {
      if i >= |h| {
        SymInverse(x[i - |h|]);
        SymInverse(y[i - |h|]);
      }
    }
    SingleErrorDetected(1, u, v, |h| + k);
  }

  lemma FirstSymbol(hrp: string, data: seq<nat>)
    requires Small(data) && data != []
    ensures StateAfter(hrp, data)
         == Polymod(Step(Polymod(1, HrpExpand(hrp)), Sym(data[0])), Syms(data[1..]))
  {
    hide Sym, Step, HrpExpand, Polymod;
    var h, first, rest := HrpExpand(hrp), [Sym(data[0])], Syms(data[1..]);
    assert Syms(data) == first + rest;
    PolymodConcat(1, h, first + rest);
    PolymodConcat(Polymod(1, h), first, rest);
    PolymodOne(Polymod(1, h), Sym(data[0]));
  }

  lemma PolymodOne(c: bv32, v: bv32)
    ensures Polymod(c, [v]) == Step(c, v)
  {
    hide Step;
    assert [v][..0] == [];
  }

  lemma SymbolsDiffer(c: bv32, v: nat, w: nat)
    requires v < 32 && w < 32
    ensures Add(Step(c, Sym(v)), Step(c, Sym(w))) == Add(Sym(v), Sym(w)) < 32
  {
    StepAdd(c, c, Sym(v), Sym(w));
    AddSelf(c);
    SymSmall(v);
    SymSmall(w);
    SmallAdd(Sym(v), Sym(w));
    hide Sym, Step, Add;
    ZeroState(Add(Sym(v), Sym(w)));
  }

  lemma SmallAdd(v: bv32, w: bv32)
    requires v < 32 && w < 32
    ensures Add(v, w) < 32
  {
  }

  lemma ZeroState(v: bv32)
    ensures Step(0, v) == v
  {
    FeedbackIsFlat(0);
    assert Flat(false, false, false, false, false) == 0;
    assert Add(Add(0, v), 0) == v;
  }

  /** Data that differ in their first symbol alone end in states whose difference is that of the
      symbols, moved by a zero step for each symbol behind. */
  lemma FirstSymbolMoves(hrp: string, x: seq<nat>, y: seq<nat>)
    requires Small(x) && Small(y) && |x| == |y| && x != [] && x[1..] == y[1..]
    ensures Add(StateAfter(hrp, x), StateAfter(hrp, y)) == ZeroSteps(Add(Sym(x[0]), Sym(y[0])), |x| - 1)
    ensures Add(Sym(x[0]), Sym(y[0])) < 32
  {
    hide Step, Add, Sym, HrpExpand, Polymod, ZeroSteps, StateAfter;
    var c := Polymod(1, HrpExpand(hrp));
    FirstSymbol(hrp, x);
    FirstSymbol(hrp, y);
    DifferenceMoves(Step(c, Sym(x[0])), Step(c, Sym(y[0])), Syms(x[1..]));
    SymbolsDiffer(c, x[0], y[0]);
  }

  lemma ConstantsDiffer(v: nat, w: nat)
    ensures ConstFor(v) != ConstFor(w) ==> Add(ConstFor(v), ConstFor(w)) == CONSTANTS_DIFFERENCE
  {
  }

  /** The state a decoded address ends in is the constant of its version. */
  lemma DecodedState(address: string)
    requires Decoded(address).Some?
    ensures var lower := Lowered(address);
            && LastOne(lower, |lower|) == Some(2) && 9 <= |lower| <= DECODE_MAX
            && (lower[..2] == "bc" || lower[..2] == "tb")
            && DataOf(lower[3..]).Some? && DataOf(lower[3..]).value != []
            && DataOf(lower[3..]).value[0] == Decoded(address).value.version
            && StateAfter(lower[..2], DataOf(lower[3..]).value) == ConstFor(Decoded(address).value.version)
  {
    hide Polymod, HrpExpand, DataOf, LastOne;
  }

  /** Changing the version character of a valid address does not lead to the other constant. */
  lemma VersionChangeSeen(hrp: string, x: seq<nat>, y: seq<nat>, v: nat, w: nat)
    requires Small(x) && Small(y) && |x| == |y| && 0 < |x| < DECODE_MAX && x[1..] == y[1..]
    requires StateAfter(hrp, x) == ConstFor(v) && StateAfter(hrp, y) == ConstFor(w)
    ensures ConstFor(v) == ConstFor(w)
  {
    hide ConstFor, StateAfter, Add, Sym, ZeroSteps;
    FirstSymbolMoves(hrp, x, y);
    ConstantsDiffer(v, w);
    ConstantsApart(Add(Sym(x[0]), Sym(y[0])), |x| - 1);
  }

  /** EVERY SINGLE ERROR IS CAUGHT, Bech32 and Bech32m together: changing one character of a valid
      address, wherever it stands, makes it invalid. */
  lemma SingleErrorRejected(a: string, b: string, k: nat)
    requires |a| == |b| && k < |a| && Decoded(a).Some?
    requires Lowered(a)[k] != Lowered(b)[k]
    requires forall i | 0 <= i < |a| && i != k :: Lowered(a)[i] == Lowered(b)[i]
    ensures Decoded(b).None?
  {
    hide Polymod, HrpExpand, DataOf, LastOne, Lowered, Decoded, StateAfter, ConstFor;
    if Decoded(b).Some? {
      DecodedState(a);
      DecodedState(b);
      var la, lb := Lowered(a), Lowered(b);
      BehindTheSeparator(la, lb, k);
      var x, y := DataOf(la[3..]).value, DataOf(lb[3..]).value;
      forall i | 0 <= i < |la| - 3 ensures la[3..][i] == lb[3..][i] <==> i != k - 3 {}
      DifferentStates(la[..2], la[3..], lb[3..], k - 3);
      if k == 3 {
        OnlyTheFirst(la[3..], lb[3..]);
        VersionChangeSeen(la[..2], x, y, Decoded(a).value.version, Decoded(b).value.version);
      }
    }
  }

  /** The network part and the separator do not differ in a single character. */
  lemma BehindTheSeparator(a: string, b: string, k: nat)
    requires |a| == |b| >= 3 && k < |a| && a[k] != b[k]
    requires forall i | 0 <= i < |a| && i != k :: a[i] == b[i]
    requires a[2] == '1' && b[2] == '1'
    requires (a[..2] == "bc" || a[..2] == "tb") && (b[..2] == "bc" || b[..2] == "tb")
    ensures k >= 3 && a[..2] == b[..2]
  {
    assert a[0] == a[..2][0] && a[1] == a[..2][1] && b[0] == b[..2][0] && b[1] == b[..2][1];
  }

  lemma OnlyTheFirst(a: string, b: string)
    requires DataOf(a).Some? && DataOf(b).Some? && |a| == |b| > 0
    requires forall i | 0 < i < |a| :: a[i] == b[i]
    ensures DataOf(a).value[1..] == DataOf(b).value[1..]
  {
    hide DataOf, CharValue;
    forall i | 0 < i < |a| ensures DataOf(a).value[i] == DataOf(b).value[i] {
      DataOfAt(a, i);
      DataOfAt(b, i);
    }
  }

  // ----- every address is an encoding

  /** What the symbols of a decoded address are made of. */
  lemma DecodedParts(address: string)
    requires Decoded(address).Some?
    ensures var lower, w := Lowered(address), Decoded(address).value;
            && |lower| >= 3 && DataOf(lower[3..]).Some?
            && (var data := DataOf(lower[3..]).value;
                && |data| >= 7 && data[0] == w.version <= 16
                && B.Regrouped(data[1..|data| - 6], 5, 8, false, PROGRAM_MAX) == Some(w.program)
                && 2 <= |w.program| <= PROGRAM_MAX)
  {
    hide Polymod, HrpExpand, DataOf, Lowered, Printable, MixedCase;
    HeadIsTwo(address);
  }

  lemma HeadIsTwo(address: string)
    requires Decoded(address).Some?
    ensures LastOne(Lowered(address), |address|) == Some(2) && |address| >= 9
  {
    DecodedState(address);
    hide Decoded, LastOne, StateAfter, DataOf;
  }

  lemma PayloadIs(version: nat, program: seq<nat>, symbols: seq<nat>)
    requires version <= 16 && |program| <= PROGRAM_MAX && |symbols| <= DECODE_MAX
    requires B.Regrouped(symbols, 5, 8, false, PROGRAM_MAX) == Some(program)
    ensures B.Fits(program, 8) && Payload(version, program) == [version] + symbols
  {
    hide B.Value, B.Pow2, B.Fits, B.Digits;
    SymbolCount(symbols, PROGRAM_MAX);
    B.RegroupThenPad(symbols, PROGRAM_MAX, 2 * PROGRAM_MAX);
  }

  lemma SymbolCount(symbols: seq<nat>, capacity: nat)
    requires B.Regrouped(symbols, 5, 8, false, capacity).Some?
    ensures |symbols| <= 2 * capacity
  {
    B.RegroupedLength(|symbols|);
    hide B.Value, B.Pow2, B.Fits, B.Quotient, B.Remainder, B.Times;
  }

  lemma {:induction false} TextOfData(s: string)
    requires DataOf(s).Some?
    ensures |CHARSET| == 32 && TextOf(DataOf(s).value) == s
  {
    CharsetPlain();
    hide DataOf, CharValue;
    forall k | 0 <= k < |s| ensures CHARSET[DataOf(s).value[k]] == s[k] {
      DataOfAt(s, k);
      CharOfValue(s[k]);
    }
    assert forall k | 0 <= k < |s| :: TextOf(DataOf(s).value)[k] == s[k];
  }

  lemma CharOfValue(ch: char)
    requires CharValue(ch).Some?
    ensures CHARSET[CharValue(ch).value] == ch
  {
  }

  lemma CheckedIs(hrp: string, data: seq<nat>, all: seq<nat>, target: bv32)
    requires Small(all) && |all| == |data| + 6 && all[..|data|] == data && target < 0x4000_0000
    requires StateAfter(hrp, all) == target
    ensures Small(data) && Checked(hrp, data, target) == all
  {
    hide Polymod, CheckSymbols, HrpExpand, Sym, Symbols;
    assert forall i | 0 <= i < |data| :: data[i] == all[..|data|][i] == all[i];
    var tail := all[|data|..];
    assert Small(tail) && all == data + tail;
    SymsConcat(data, tail);
    SymsAreSymbols(tail);
    PolymodConcat(1, HrpExpand(hrp) + Syms(data), Syms(tail));
    assert HrpExpand(hrp) + Syms(data) + Syms(tail) == HrpExpand(hrp) + Syms(all);
    CheckSymbolsUnique(StateAfter(hrp, data), target, Syms(tail));
    IntsOfSyms(tail);
  }

  lemma IntsOfSyms(data: seq<nat>)
    requires Small(data)
    ensures Symbols(Syms(data)) && Ints(Syms(data)) == data
  {
    hide Sym;
    SymsAreSymbols(data);
    forall i | 0 <= i < |data| ensures Ints(Syms(data))[i] == data[i] {
      SymInverse(data[i]);
    }
  }

  /** Version, regrouped program and checksum are all the symbols there are. */
  lemma SymbolsAre(hrp: string, all: seq<nat>, version: nat, program: seq<nat>)
    requires Small(all) && 7 <= |all| <= DECODE_MAX && all[0] == version <= 16 && |program| <= PROGRAM_MAX
    requires B.Regrouped(all[1..|all| - 6], 5, 8, false, PROGRAM_MAX) == Some(program)
    requires StateAfter(hrp, all) == ConstFor(version)
    ensures B.Fits(program, 8) && ConstFor(version) < 0x4000_0000
    ensures Checked(hrp, Payload(version, program), ConstFor(version)) == all
  {
    hide StateAfter, ConstFor, Checked, Payload, B.Fits, B.Regrouped;
    var symbols := all[1..|all| - 6];
    PayloadIs(version, program, symbols);
    assert all[..|all| - 6] == [all[0]] + symbols;
    ConstRange(version);
    CheckedIs(hrp, Payload(version, program), all, ConstFor(version));
  }

  lemma TextIs(hrp: string, lower: string, version: nat, program: seq<nat>)
    requires |lower| >= 3 && lower[..2] == hrp && lower[2] == '1' && DataOf(lower[3..]).Some?
    requires Encodable(hrp, version, program) && ConstFor(version) < 0x4000_0000
    requires Checked(hrp, Payload(version, program), ConstFor(version)) == DataOf(lower[3..]).value
    ensures Encoded(hrp, version, program) == lower
  {
    hide DataOf, ConstFor, TextOf, Checked, Payload, Encodable;
    TextOfData(lower[3..]);
    assert lower == hrp + "1" + lower[3..];
  }

  /** Encoding undoes the decoder: in lower case, an address is the encoding of what it gives. */
  lemma EncodeUndoesDecode(address: string)
    requires Decoded(address).Some?
    ensures var lower, w := Lowered(address), Decoded(address).value;
            && |lower| >= 2 && Encodable(lower[..2], w.version, w.program)
            && Encoded(lower[..2], w.version, w.program) == lower
  {
    DecodedState(address);
    DecodedParts(address);
    hide DataOf, Lowered, LastOne, Decoded, StateAfter, ConstFor, Checked, Payload, Encoded, B.Fits, B.Regrouped;
    var lower, w := Lowered(address), Decoded(address).value;
    SymbolsAre(lower[..2], DataOf(lower[3..]).value, w.version, w.program);
    TextIs(lower[..2], lower, w.version, w.program);
  }

  const CAPITALS: string := "ABCDEFGHIJKLMNOPQRSTUVWXYZ"
  const SMALLS: string := "abcdefghijklmnopqrstuvwxyz"

  /** The capital of a small letter, by the alphabet. */
  function UpperChar(ch: char): char {
    var i := IndexFrom(SMALLS, ch, 0);
    Capitals();
    if i.Some? then CAPITALS[i.value] else ch
  }

  function Uppered(s: string): (r: string)
    ensures |r| == |s| && forall i | 0 <= i < |s| :: r[i] == UpperChar(s[i])
  {
    seq(|s|, i requires 0 <= i < |s| => UpperChar(s[i]))
  }

  lemma Capitals()
    ensures |CAPITALS| == 26 == |SMALLS|
    ensures forall i | 0 <= i < 26 :: CAPITALS[i] as int == 'A' as int + i
    ensures forall i | 0 <= i < 26 :: SMALLS[i] as int == 'a' as int + i
  {
  }

  /** The arithmetic on character codes is the alphabet's. */
  lemma Letters(ch: char)
    ensures LowerChar(UpperChar(ch)) == LowerChar(ch)
    ensures 'A' <= ch <= 'Z' ==> UpperChar(LowerChar(ch)) == ch
    ensures !('a' <= UpperChar(ch) <= 'z')
    ensures !('a' <= ch <= 'z') ==> UpperChar(ch) == ch
    ensures 'A' <= UpperChar(ch) <= 'Z' <==> 'A' <= ch <= 'Z' || 'a' <= ch <= 'z'
  {
    Capitals();
    hide CAPITALS, SMALLS;
    if 'a' <= ch <= 'z' {
      assert SMALLS[ch as int - 'a' as int] == ch;
    }
    if 'A' <= ch <= 'Z' {
      assert SMALLS[ch as int - 'A' as int] == LowerChar(ch);
    }
  }

  /** Texts in one case, by the letters in them. */
  lemma OneCaseIff(text: string, e: string)
    requires Lowered(e) == e && !MixedCase(e)
    ensures text == e || text == Uppered(e) <==> Lowered(text) == e && !MixedCase(text)
  {
    if text == Uppered(e) {
      UpperedLowers(text, e);
    }
    if Lowered(text) == e && !MixedCase(text) {
      IsOneCase(text, e);
    }
  }

  lemma UpperedLowers(text: string, e: string)
    requires Lowered(e) == e && text == Uppered(e)
    ensures Lowered(text) == e && !MixedCase(text)
  {
    forall i | 0 <= i < |e| ensures LowerChar(text[i]) == e[i] && !('a' <= text[i] <= 'z') {
      Letters(e[i]);
      assert Lowered(e)[i] == LowerChar(e[i]);
    }
    hide UpperChar, LowerChar, Uppered;
    assert forall i | 0 <= i < |e| :: Lowered(text)[i] == e[i];
  }

  lemma IsOneCase(text: string, e: string)
    requires Lowered(text) == e && !MixedCase(text)
    ensures text == e || text == Uppered(e)
  {
    forall i | 0 <= i < |text|
      ensures e[i] == LowerChar(text[i])
      ensures !('A' <= text[i] <= 'Z') ==> text[i] == e[i]
      ensures !('a' <= text[i] <= 'z') ==> text[i] == UpperChar(e[i])
    {
      assert Lowered(text)[i] == LowerChar(text[i]);
      Letters(text[i]);
    }
    hide UpperChar, LowerChar, Lowered;
    if forall i | 0 <= i < |text| :: !('A' <= text[i] <= 'Z') {
      assert text == e;
    } else {
      assert forall i | 0 <= i < |text| :: !('a' <= text[i] <= 'z');
      assert text == Uppered(e);
    }
  }

  /** The text is this program's address on this network, in small letters or in capitals. */
  ghost predicate Spells(text: string, hrp: string, w: Witness) {
    Encodable(hrp, w.version, w.program) &&
    (text == Encoded(hrp, w.version, w.program) || text == Uppered(Encoded(hrp, w.version, w.program)))
  }

  lemma SpellsIff(text: string, hrp: string, w: Witness)
    ensures Spells(text, hrp, w) <==>
            && Encodable(hrp, w.version, w.program) && Lowered(text) == Encoded(hrp, w.version, w.program)
            && !MixedCase(text)
  {
    hide Lowered, MixedCase, Encodable, Encoded, Uppered;
    if Encodable(hrp, w.version, w.program) {
      EncodedIsPlain(hrp, w.version, w.program);
      OneCaseIff(text, Encoded(hrp, w.version, w.program));
    }
  }

  lemma PrintableWhenLowered(a: string, b: string)
    requires Lowered(a) == Lowered(b) && Printable(b)
    ensures Printable(a)
  {
    forall i | 0 <= i < |a| ensures 33 as char <= a[i] <= 126 as char {
      assert LowerChar(a[i]) == Lowered(a)[i] == Lowered(b)[i] == LowerChar(b[i]);
    }
  }

  lemma SameWhenLowered(a: string, b: string)
    requires Lowered(a) == Lowered(b) && |a| == |b| && !MixedCase(a) && !MixedCase(b) && Printable(a) && Printable(b)
    ensures Decoded(a) == Decoded(b)
  {
    hide Polymod, HrpExpand, DataOf, LastOne, WitnessOf, Lowered, MixedCase, Printable;
  }

  /** EXACTLY THE ADDRESSES: the texts that decode to a witness are its two networks' addresses, in
      small letters or in capitals. */
  lemma DecodedIff(text: string, w: Witness)
    ensures Decoded(text) == Some(w) <==> Spells(text, "bc", w) || Spells(text, "tb", w)
  {
    SpellsIff(text, "bc", w);
    SpellsIff(text, "tb", w);
    hide Lowered, Printable, MixedCase, Encodable, Encoded, Decoded, Spells;
    if Decoded(text) == Some(w) {
      EncodeUndoesDecode(text);
      DecodedHead(text);
    }
    if Spells(text, "bc", w) {
      SpelledDecodes(text, "bc", w);
    }
    if Spells(text, "tb", w) {
      SpelledDecodes(text, "tb", w);
    }
  }

  lemma DecodedHead(text: string)
    requires Decoded(text).Some?
    ensures !MixedCase(text) && |text| >= 9 && (Lowered(text)[..2] == "bc" || Lowered(text)[..2] == "tb")
  {
    DecodedState(text);
    hide StateAfter, DataOf, LastOne, WitnessOf, Polymod, HrpExpand, MixedCase;
  }

  lemma EncodedIsPlain(hrp: string, version: nat, program: seq<nat>)
    requires Encodable(hrp, version, program)
    ensures var s := Encoded(hrp, version, program);
            Lowered(s) == s && !MixedCase(s) && Printable(s)
  {
    ConstRange(version);
    CharsetPlain();
    var all := Checked(hrp, Payload(version, program), ConstFor(version));
    TextIsPlain(all);
    hide Checked, Payload, TextOf, Lowered, MixedCase, Printable, LastOne;
    AddressText(hrp, TextOf(all));
  }

  lemma SpelledDecodes(text: string, hrp: string, w: Witness)
    requires Spells(text, hrp, w)
    ensures Decoded(text) == Some(w)
  {
    SpellsIff(text, hrp, w);
    hide Lowered, Printable, MixedCase, Encodable, Encoded, Decoded, Spells;
    EncodedIsPlain(hrp, w.version, w.program);
    var address := Encoded(hrp, w.version, w.program);
    assert |text| == |Lowered(text)| == |address|;
    PrintableWhenLowered(text, address);
    SameWhenLowered(text, address);
    DecodeUndoesEncode(hrp, w.version, w.program);
  }
}
