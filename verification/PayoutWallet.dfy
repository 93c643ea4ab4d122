/** From the wallet text a pool was given to the output script of main/stratum_payout.c, and on to
    the verdict on a coinbase. */
module PayoutWallet {
  import opened Basics
  import P = Positional
  import Legacy = Base58
  import LegacyText
  import Segwit = Bech32Address
  import Checksum = Bech32Checksum
  import B = BitRegrouping
  import Scan = CoinbaseScan

  const ADDRESS_MAX: nat := 128

  /** The double SHA-256, whatever it computes. */
  ghost predicate IsHash(sha: seq<nat> -> seq<nat>) {
    forall data :: |sha(data)| == 32 && P.DigitsIn(sha(data), 256)
  }

  // ----- scripts

  /** Pay-to-public-key-hash for version byte 0, pay-to-script-hash for 5. */
  function HashScript(payload: seq<nat>): Option<seq<nat>>
    requires |payload| == 21
  {
    if payload[0] == 0 then Some([0x76, 0xa9, 0x14] + payload[1..] + [0x88, 0xac])
    else if payload[0] == 5 then Some([0xa9, 0x14] + payload[1..] + [0x87])
    else None
  }

  /** The hash script of a legacy address. */
  ghost function LegacyScript(wallet: string, sha: seq<nat> -> seq<nat>): Option<seq<nat>> {
    var raw := Legacy.Raw(wallet);
    if raw.Some? && Legacy.ChecksumFits(raw.value, sha) && |raw.value| == 25 then HashScript(raw.value[..21]) else None
  }

  function WitnessScript(segwit: Segwit.Witness): seq<nat> {
    [if segwit.version == 0 then 0 else 0x50 + segwit.version, |segwit.program|] + segwit.program
  }

  // ----- what a script says

  const OP_0: nat := 0x00
  const OP_1: nat := 0x51
  const OP_16: nat := 0x60
  const OP_DUP: nat := 0x76
  const OP_EQUAL: nat := 0x87
  const OP_EQUALVERIFY: nat := 0x88
  const OP_HASH160: nat := 0xa9
  const OP_CHECKSIG: nat := 0xac

  /** Who may spend: the holder of a key or of a script with this hash, or of a witness program. */
  datatype Payee = KeyHash(hash: seq<nat>) | ScriptHash(hash: seq<nat>) | Program(segwit: Segwit.Witness)

  /** How the network reads an output script: the two templates for hashes, the second as BIP 16 has
      it, and section "Witness program" of BIP 141. */
  function Read(script: seq<nat>): Option<Payee> {
    var n := |script|;
    if n == 25 && script[0] == OP_DUP && script[1] == OP_HASH160 && script[2] == 20 &&
       script[23] == OP_EQUALVERIFY && script[24] == OP_CHECKSIG then Some(KeyHash(script[3..23]))
    else if n == 23 && script[0] == OP_HASH160 && script[1] == 20 && script[22] == OP_EQUAL then
      Some(ScriptHash(script[2..22]))
    else if 4 <= n <= 42 && script[1] == n - 2 && script[0] == OP_0 then Some(Program(Segwit.Witness(0, script[2..])))
    else if 4 <= n <= 42 && script[1] == n - 2 && OP_1 <= script[0] <= OP_16 then
      Some(Program(Segwit.Witness(script[0] - OP_1 + 1, script[2..])))
    else None
  }

  /** What the network reads in the script of a wallet text. */
  ghost function PayeeOf(script: Option<seq<nat>>): Option<Payee> {
    if script.None? then None else Read(script.value)
  }

  lemma HashScriptReads(payload: seq<nat>)
    requires |payload| == 21
    ensures PayeeOf(HashScript(payload)) == if payload[0] == 0 then Some(KeyHash(payload[1..]))
                                            else if payload[0] == 5 then Some(ScriptHash(payload[1..]))
                                            else None
  {
    if payload[0] == 0 {
      assert HashScript(payload).value[3..23] == payload[1..];
    } else if payload[0] == 5 {
      assert HashScript(payload).value[2..22] == payload[1..];
    }
  }

  lemma WitnessScriptReads(w: Segwit.Witness)
    requires w.version <= 16 && 2 <= |w.program| <= Segwit.PROGRAM_MAX
    ensures Read(WitnessScript(w)) == Some(Program(w))
  {
    assert WitnessScript(w)[2..] == w.program;
  }

  /** What an address pays to. */
  ghost function Script(wallet: string, sha: seq<nat> -> seq<nat>): Option<seq<nat>> {
    var legacy := LegacyScript(wallet, sha);
    var segwit := Segwit.Decoded(wallet);
    if legacy.Some? then legacy else if segwit.Some? then Some(WitnessScript(segwit.value)) else None
  }

  /** What a wallet text pays to: an address, or an address, a dot and a worker's name. */
  ghost function TextScript(wallet: string, sha: seq<nat> -> seq<nat>): Option<seq<nat>> {
    var worker := IndexFrom(wallet, '.', 0);
    if wallet == "" then None
    else if Script(wallet, sha).Some? then Script(wallet, sha)
    else if worker.None? || worker.value == 0 || worker.value > ADDRESS_MAX then None
    else Script(wallet[..worker.value], sha)
  }

  /** `payout_wallet_script`. */
  method WalletScript(wallet: string, sha: seq<nat> -> seq<nat>) returns (r: Option<seq<nat>>)
    requires IsHash(sha)
    ensures r == Script(wallet, sha)
  {
    hide Legacy.Raw, Segwit.Decoded;
    var decoded := Legacy.DecodeChecked(wallet, sha);
    if decoded.Some? && |decoded.value| == 21 {
      r := HashScript(decoded.value);
      if r.Some? {
        return;
      }
    }
    var segwit := Segwit.DecodeWitness(wallet);
    r := if segwit.Some? then Some(WitnessScript(segwit.value)) else None;
  }

  /** `payout_wallet_text_script`. */
  method WalletTextScript(wallet: string, sha: seq<nat> -> seq<nat>) returns (r: Option<seq<nat>>)
    requires IsHash(sha)
    ensures r == TextScript(wallet, sha)
  {
    hide Script;
    if wallet == "" {
      return None;
    }
    r := WalletScript(wallet, sha);
    if r.Some? {
      return;
    }
    var worker := IndexFrom(wallet, '.', 0);
    if worker.None? || worker.value == 0 || worker.value > ADDRESS_MAX {
      return None;
    }
    r := WalletScript(wallet[..worker.value], sha);
  }

  // ----- scripts are bytes

  lemma RawIsBytes(text: string)
    requires Legacy.Raw(text).Some?
    ensures P.DigitsIn(Legacy.Raw(text).value, 256)
  {
    P.MinDigitsSpell(P.Value(Legacy.DigitsOf(text).value, 58), 256);
    hide P.Value, P.MinDigits, Legacy.DigitsOf;
  }

  lemma EightBits()
    ensures B.Pow2(8) == 256
  {
    assert B.Pow2(4) == 16;
  }

  lemma ProgramIsBytes(address: string)
    requires Segwit.Decoded(address).Some?
    ensures P.DigitsIn(Segwit.Decoded(address).value.program, 256)
    ensures |Segwit.Decoded(address).value.program| <= 40 && Segwit.Decoded(address).value.version <= 16
  {
    hide Checksum.Polymod, Segwit.HrpExpand, Segwit.DataOf, Segwit.LastOne, Segwit.Lowered, B.Regrouped;
    var lower := Segwit.Lowered(address);
    var data := Segwit.DataOf(lower[Segwit.LastOne(lower, |address|).value + 1..]).value;
    RegroupedFits(data[1..|data| - 6], 40);
    EightBits();
  }

  lemma RegroupedFits(input: seq<nat>, capacity: nat)
    requires B.Regrouped(input, 5, 8, false, capacity).Some?
    ensures B.Fits(B.Regrouped(input, 5, 8, false, capacity).value, 8)
  {
    hide B.Value, B.Pow2, B.Quotient, B.Times, B.Remainder, B.Digits, B.Fits;
    var groups, left := B.Quotient(B.Times(|input|, 5), 8), B.Remainder(B.Times(|input|, 5), 8);
    B.DigitsFit(B.Quotient(B.Value(input, 5), B.Pow2(left)), groups, 8);
  }

  lemma HashScriptIsBytes(payload: seq<nat>)
    requires |payload| == 21 && P.DigitsIn(payload, 256)
    ensures HashScript(payload).Some? ==> P.DigitsIn(HashScript(payload).value, 256)
  {
  }

  /** Every script is a string of bytes. */
  lemma ScriptIsBytes(wallet: string, sha: seq<nat> -> seq<nat>)
    ensures Script(wallet, sha).Some? ==> P.DigitsIn(Script(wallet, sha).value, 256)
  {
    hide Legacy.Raw, Segwit.Decoded, HashScript;
    var raw := Legacy.Raw(wallet);
    if raw.Some? && |raw.value| == 25 {
      RawIsBytes(wallet);
      HashScriptIsBytes(raw.value[..21]);
    }
    if Segwit.Decoded(wallet).Some? {
      ProgramIsBytes(wallet);
    }
  }

  lemma TextScriptIsBytes(wallet: string, sha: seq<nat> -> seq<nat>)
    ensures TextScript(wallet, sha).Some? ==> P.DigitsIn(TextScript(wallet, sha).value, 256)
  {
    hide Script;
    ScriptIsBytes(wallet, sha);
    var worker := IndexFrom(wallet, '.', 0);
    if worker.Some? {
      ScriptIsBytes(wallet[..worker.value], sha);
    }
  }

  function Bytes(s: seq<nat>): (r: seq<Scan.Byte>)
    requires P.DigitsIn(s, 256)
    ensures |r| == |s| && forall i | 0 <= i < |s| :: r[i] == s[i]
  {
    seq(|s|, i requires 0 <= i < |s| => s[i])
  }

  ghost function ScriptBytes(wallet: string, sha: seq<nat> -> seq<nat>): Option<seq<Scan.Byte>> {
    TextScriptIsBytes(wallet, sha);
    var script := TextScript(wallet, sha);
    if script.None? then None else Some(Bytes(script.value))
  }

  /** `stratum_payout_evaluate`, from the wallet text. */
  method EvaluateWallet(wallet: string, sha: seq<nat> -> seq<nat>, coinbase: seq<Scan.Byte>) returns (r: Scan.Payout)
    requires IsHash(sha)
    ensures r == Scan.Evaluated(ScriptBytes(wallet, sha), coinbase)
  {
    hide TextScript, Scan.Evaluated;
    var script := WalletTextScript(wallet, sha);
    TextScriptIsBytes(wallet, sha);
    r := Scan.Evaluate(if script.None? then None else Some(Bytes(script.value)), coinbase);
  }

  // ----- addresses give their scripts

  /** A legacy address: a version byte, a hash, and the start of their checksum, in base 58. */
  ghost function LegacyAddress(payload: seq<nat>, sha: seq<nat> -> seq<nat>): string
    requires |payload| == 21 && P.DigitsIn(payload, 256) && IsHash(sha)
  {
    Legacy.Encoded(payload + sha(payload)[..4])
  }

  /** LEGACY ADDRESSES: every hash with version byte 0 is paid as the hash of a key, with 5 as that of
      a script, and with no other at all. */
  lemma LegacyGivesScript(payload: seq<nat>, sha: seq<nat> -> seq<nat>)
    requires |payload| == 21 && P.DigitsIn(payload, 256) && IsHash(sha)
    ensures LegacyScript(LegacyAddress(payload, sha), sha) == HashScript(payload)
    ensures PayeeOf(LegacyScript(LegacyAddress(payload, sha), sha))
         == if payload[0] == 0 then Some(KeyHash(payload[1..]))
            else if payload[0] == 5 then Some(ScriptHash(payload[1..])) else None
    ensures payload[0] == 0 || payload[0] == 5 ==>
              Script(LegacyAddress(payload, sha), sha) == LegacyScript(LegacyAddress(payload, sha), sha)
  {
    HashScriptReads(payload);
    var raw := payload + sha(payload)[..4];
    assert |sha(payload)| == 32 && P.DigitsIn(sha(payload), 256);
    assert P.DigitsIn(raw, 256);
    hide Legacy.Raw, Legacy.Encoded, Segwit.Decoded, HashScript, P.DigitsIn, Read;
    Legacy.DecodeUndoesEncode(raw);
    assert raw[..21] == payload && raw[21..] == sha(payload)[..4];
  }

  /** A legacy address starts with '1', or is 34 characters and starts with '3'. */
  lemma LegacyStart(text: string, sha: seq<nat> -> seq<nat>)
    requires LegacyScript(text, sha).Some?
    ensures text != "" && (text[0] == '1' || (text[0] == '3' && |text| == 34))
  {
    hide Legacy.Raw;
    LegacyText.LegacyForm(text);
  }

  lemma SegwitStart(text: string)
    requires Segwit.Decoded(text).Some?
    ensures text != "" && text[0] in "bBtT"
  {
    Segwit.DecodedState(text);
    hide Segwit.Decoded, Segwit.DataOf, Segwit.StateAfter, Segwit.LastOne;
    var lower := Segwit.Lowered(text);
    assert lower[0] == lower[..2][0];
  }

  /** NO TEXT IS BOTH KINDS OF ADDRESS, whatever the hash: which decoder is asked first does not
      matter. */
  lemma SegwitIsNotLegacy(text: string, sha: seq<nat> -> seq<nat>)
    ensures Segwit.Decoded(text).Some? ==> LegacyScript(text, sha).None?
    ensures Script(text, sha) == if Segwit.Decoded(text).Some? then Some(WitnessScript(Segwit.Decoded(text).value))
                                 else LegacyScript(text, sha)
  {
    hide Segwit.Decoded, LegacyScript;
    if Segwit.Decoded(text).Some? && LegacyScript(text, sha).Some? {
      SegwitStart(text);
      LegacyStart(text, sha);
    }
  }

  /** What a text's script is read as. */
  lemma PayeeIs(text: string, sha: seq<nat> -> seq<nat>)
    ensures PayeeOf(Script(text, sha))
         == if Segwit.Decoded(text).Some? then Some(Program(Segwit.Decoded(text).value))
            else PayeeOf(LegacyScript(text, sha))
    ensures Script(text, sha).Some? ==> PayeeOf(Script(text, sha)).Some?
  {
    SegwitIsNotLegacy(text, sha);
    if Segwit.Decoded(text).Some? {
      Segwit.DecodedParts(text);
      hide Segwit.Decoded, Segwit.DataOf, Segwit.Lowered, B.Regrouped, LegacyScript, Script, WitnessScript, Read;
      WitnessScriptReads(Segwit.Decoded(text).value);
    } else {
      LegacyPayee(text, sha);
      hide Segwit.Decoded, LegacyScript, Script, Read;
    }
  }

  /** A legacy text is read as the hash its bytes hold, and its bytes are those of one address. */
  lemma LegacyPayee(text: string, sha: seq<nat> -> seq<nat>)
    ensures var script := LegacyScript(text, sha);
            && (script.Some? ==>
                  var raw := Legacy.Raw(text);
                  && raw.Some? && |raw.value| == 25 && Legacy.ChecksumFits(raw.value, sha)
                  && (raw.value[0] == 0 || raw.value[0] == 5)
                  && PayeeOf(script) == Some(if raw.value[0] == 0 then KeyHash(raw.value[1..21])
                                             else ScriptHash(raw.value[1..21])))
  {
    hide Legacy.Raw, Legacy.ChecksumFits, Read;
    if LegacyScript(text, sha).Some? {
      var raw := Legacy.Raw(text).value;
      HashScriptReads(raw[..21]);
      assert raw[..21][1..] == raw[1..21];
    }
  }

  lemma SameRaw(raw: seq<nat>, payload: seq<nat>, sha: seq<nat> -> seq<nat>)
    requires |raw| == 25 && |payload| == 21 && raw[0] == payload[0] && raw[1..21] == payload[1..]
    requires IsHash(sha) && Legacy.ChecksumFits(raw, sha)
    ensures raw == payload + sha(payload)[..4]
  {
    assert raw[..21] == [raw[0]] + raw[1..21] && payload == [payload[0]] + payload[1..];
    assert raw == raw[..21] + raw[21..];
  }

  /** ONE ADDRESS FOR A HASH: of all texts exactly its own legacy address is paid as the hash of a
      key, or of a script. */
  lemma HashScriptIff(text: string, payload: seq<nat>, sha: seq<nat> -> seq<nat>)
    requires |payload| == 21 && P.DigitsIn(payload, 256) && IsHash(sha)
    ensures payload[0] == 0 ==>
              (PayeeOf(Script(text, sha)) == Some(KeyHash(payload[1..])) <==> text == LegacyAddress(payload, sha))
    ensures payload[0] == 5 ==>
              (PayeeOf(Script(text, sha)) == Some(ScriptHash(payload[1..])) <==> text == LegacyAddress(payload, sha))
  {
    hide Legacy.Raw, Legacy.Encoded, Legacy.ChecksumFits, Segwit.Decoded, LegacyScript, Script, Read;
    LegacyGivesScript(payload, sha);
    PayeeIs(text, sha);
    LegacyPayee(text, sha);
    if payload[0] == 0 && PayeeOf(Script(text, sha)) == Some(KeyHash(payload[1..])) {
      SameRaw(Legacy.Raw(text).value, payload, sha);
      Legacy.EncodeUndoesDecode(text);
    }
    if payload[0] == 5 && PayeeOf(Script(text, sha)) == Some(ScriptHash(payload[1..])) {
      SameRaw(Legacy.Raw(text).value, payload, sha);
      Legacy.EncodeUndoesDecode(text);
    }
  }

  /** SEGWIT ADDRESSES: every network, version and program is paid as just that program. */
  lemma SegwitGivesScript(hrp: string, version: nat, program: seq<nat>, sha: seq<nat> -> seq<nat>)
    requires Segwit.Encodable(hrp, version, program)
    ensures PayeeOf(Script(Segwit.Encoded(hrp, version, program), sha))
         == Some(Program(Segwit.Witness(version, program)))
  {
    hide Segwit.Decoded, Segwit.Encoded, Script, LegacyScript, Read;
    Segwit.DecodeUndoesEncode(hrp, version, program);
    PayeeIs(Segwit.Encoded(hrp, version, program), sha);
  }

  /** AND FOR A WITNESS PROGRAM: of all texts exactly its two networks' addresses, in small
      letters or in capitals, are paid as that program. */
  lemma WitnessScriptIff(text: string, w: Segwit.Witness, sha: seq<nat> -> seq<nat>)
    ensures PayeeOf(Script(text, sha)) == Some(Program(w)) <==>
            Segwit.Spells(text, "bc", w) || Segwit.Spells(text, "tb", w)
  {
    hide Segwit.Decoded, Segwit.Spells, LegacyScript, Script, Read;
    Segwit.DecodedIff(text, w);
    PayeeIs(text, sha);
    LegacyPayee(text, sha);
  }

  // ----- worker names

  lemma {:induction false} NoDigitDot(text: string, i: nat)
    requires i < |text| && text[i] == '.'
    ensures Legacy.DigitsOf(text).None?
    decreases |text|
  {
    if i < |text| - 1 {
      NoDigitDot(text[..|text| - 1], i);
    } else {
      hide Legacy.CharValue;
      DotIsNoSymbol();
    }
  }

  lemma DotIsNoSymbol()
    ensures Legacy.CharValue('.').None? && Segwit.CharValue('.').None?
  {
    Legacy.AlphabetDistinct();
    Segwit.CharsetPlaces();
    hide Segwit.Place;
    assert Segwit.Place('.') == 32 by { DotPlace(); }
    DotIsNoDigit();
  }

  lemma DotPlace()
    ensures Segwit.Place('.') == 32
  {
  }

  lemma DotIsNoDigit()
    ensures Legacy.CharValue('.').None?
  {
  }

  lemma {:induction false} NoDataDot(text: string, i: nat)
    requires i < |text| && text[i] == '.'
    ensures Segwit.DataOf(text).None?
    decreases |text|
  {
    if i < |text| - 1 {
      NoDataDot(text[..|text| - 1], i);
    } else {
      hide Segwit.CharValue;
      DotIsNoSymbol();
    }
  }

  /** Nothing with a dot in it is an address. */
  lemma DotIsNoAddress(text: string, i: nat, sha: seq<nat> -> seq<nat>)
    requires i < |text| && text[i] == '.'
    ensures Script(text, sha).None?
  {
    hide Segwit.Decoded, Legacy.DigitsOf, Legacy.ChecksumFits, HashScript;
    NoDigitDot(text, i);
    DotIsNotDecoded(text, i);
  }

  lemma DotIsNotDecoded(text: string, i: nat)
    requires i < |text| && text[i] == '.'
    ensures Segwit.Decoded(text).None?
  {
    DotStays(text, i);
    hide Segwit.Decoded, Segwit.DataOf, Segwit.Lowered, Segwit.StateAfter, Segwit.LastOne, Checksum.Polymod;
    if Segwit.Decoded(text).Some? {
      Segwit.DecodedState(text);
      var lower := Segwit.Lowered(text);
      HeadHasNoDot(lower);
      if i >= 3 {
        NoDataDot(lower[3..], i - 3);
      }
    }
  }

  lemma HeadHasNoDot(lower: string)
    requires |lower| >= 3 && (lower[..2] == "bc" || lower[..2] == "tb") && lower[2] == '1'
    ensures forall i | 0 <= i < 3 :: lower[i] != '.'
  {
    assert lower[0] == lower[..2][0] && lower[1] == lower[..2][1];
  }

  lemma DotStays(text: string, i: nat)
    requires i < |text| && text[i] == '.'
    ensures Segwit.Lowered(text)[i] == '.'
  {
  }

  /** A WORKER'S NAME behind a dot changes nothing. */
  lemma WorkerNameIsIgnored(address: string, worker: string, sha: seq<nat> -> seq<nat>)
    requires address != "" && |address| <= ADDRESS_MAX && '.' !in address
    ensures TextScript(address + "." + worker, sha) == Script(address, sha) == TextScript(address, sha)
  {
    hide Script;
    var text := address + "." + worker;
    assert text[|address|] == '.' && text[..|address|] == address;
    DotIsNoAddress(text, |address|, sha);
    assert forall k | 0 <= k < |address| :: text[k] == address[k] && address[k] in address;
    assert IndexFrom(text, '.', 0) == Some(|address|) && IndexFrom(address, '.', 0) == None;
  }

  // ----- from the wallet text to the verdict

  /** Scripts that are read alike are the same. */
  lemma ReadInjective(a: seq<nat>, b: seq<nat>)
    requires Read(a).Some? && Read(a) == Read(b)
    ensures a == b
  {
    match Read(a).value
    case KeyHash(hash) =>
      assert a == a[..3] + a[3..23] + a[23..] && b == b[..3] + b[3..23] + b[23..];
    case ScriptHash(hash) =>
      assert a == a[..2] + a[2..22] + a[22..] && b == b[..2] + b[2..22] + b[22..];
    case Program(w) =>
      assert a == a[..2] + a[2..] && b == b[..2] + b[2..];
  }

  /** What the outputs that are read as this payee's pay together. */
  function PaidFor(outputs: seq<Scan.Output>, payee: Payee): nat {
    if outputs == [] then 0
    else (if Read(outputs[0].script) == Some(payee) then outputs[0].value else 0) + PaidFor(outputs[1..], payee)
  }

  lemma {:induction false} PaidForIs(outputs: seq<Scan.Output>, script: seq<Scan.Byte>, payee: Payee)
    requires Read(script) == Some(payee)
    ensures Scan.PaidTo(outputs, script) == PaidFor(outputs, payee)
  {
    if outputs != [] {
      if Read(outputs[0].script) == Some(payee) {
        ReadInjective(outputs[0].script, script);
      }
      hide Read;
      PaidForIs(outputs[1..], script, payee);
    }
  }

  lemma BytesAre(s: seq<nat>)
    requires P.DigitsIn(s, 256)
    ensures Bytes(s) == s
  {
  }

  /** THE VERDICT ON A POOL'S COINBASE, from the wallet text on: a text that gives no script is
      unsupported. Otherwise, when the outputs together stay below 2^64, the wallet is missing exactly
      when no output is read as its payee's, and good exactly when the product fits and those outputs
      pay at least 96.995 percent. */
  lemma WalletVerdict(wallet: string, sha: seq<nat> -> seq<nat>, tx: Scan.Tx)
    requires Scan.TxOk(tx) && 0 < Scan.Paid(tx.outputs) < Scan.U64
    ensures var r, payee := Scan.Evaluated(ScriptBytes(wallet, sha), Scan.Serialized(tx)),
                            PayeeOf(TextScript(wallet, sha));
            && (r.status.UnsupportedWallet? <==> payee.None?)
            && (payee.Some? ==>
                  var paid, total := PaidFor(tx.outputs, payee.value), Scan.Paid(tx.outputs);
                  && !r.status.ParseError? && r.percentX100 <= 10000
                  && (r.status.Missing? <==> paid == 0)
                  && (r.status.Ok? <==> Scan.NoOverflow(paid, total) && 20000 * paid >= 19399 * total))
  {
    TextPayee(wallet, sha);
    TextScriptIsBytes(wallet, sha);
    var script := TextScript(wallet, sha);
    hide TextScript, Read, Scan.Evaluated, Scan.Serialized, Scan.NoOverflow, Scan.TxOk, Bytes;
    if script.Some? {
      BytesAre(script.value);
      PaidForIs(tx.outputs, Bytes(script.value), Read(script.value).value);
      Scan.VerdictIsExact(tx, Bytes(script.value));
      Scan.PaidToAtMostPaid(tx.outputs, Bytes(script.value));
      SmallWords(Scan.PaidTo(tx.outputs, Bytes(script.value)), Scan.Paid(tx.outputs));
    } else {
      NoScriptNoWallet(Scan.Serialized(tx));
    }
  }

  lemma SmallWords(wallet: nat, total: nat)
    requires wallet <= total < Scan.U64
    ensures wallet % Scan.U64 == wallet && total % Scan.U64 == total
  {
  }

  lemma NoScriptNoWallet(bytes: seq<Scan.Byte>)
    ensures Scan.Evaluated(None, bytes).status.UnsupportedWallet?
  {
  }

  lemma TextPayee(wallet: string, sha: seq<nat> -> seq<nat>)
    ensures TextScript(wallet, sha).Some? ==> PayeeOf(TextScript(wallet, sha)).Some?
  {
    hide Script, Read;
    PayeeIs(wallet, sha);
    var worker := IndexFrom(wallet, '.', 0);
    if worker.Some? {
      PayeeIs(wallet[..worker.value], sha);
    }
  }
}
