/** The coinbase output scanner of main/stratum_payout.c and the transaction serialisation it
    reads (with or without the marker and flag of BIP 144). */
module CoinbaseScan {
  import opened Basics

  type Byte = x: int | 0 <= x < 256

  const U64: nat := 0x1_0000_0000_0000_0000
  const MAX_INPUTS: nat := 8
  const MAX_OUTPUTS: nat := 64

  // ----- little-endian numbers

  function LeValue(s: seq<Byte>): nat {
    if s == [] then 0 else s[0] as int + 256 * LeValue(s[1..])
  }

  function LeBytes(v: nat, n: nat): (r: seq<Byte>)
    ensures |r| == n
    decreases n
  {
    if n == 0 then [] else [(v % 256) as Byte] + LeBytes(v / 256, n - 1)
  }

  function Range256(n: nat): nat {
    if n == 0 then 1 else 256 * Range256(n - 1)
  }

  lemma {:induction false} LeRoundTrip(v: nat, n: nat)
    requires v < Range256(n)
    ensures LeValue(LeBytes(v, n)) == v
    decreases n
  {
    if n == 0 {
    } else {
      LeRoundTrip(v / 256, n - 1);
      assert LeBytes(v, n)[1..] == LeBytes(v / 256, n - 1);
    }
  }

  lemma {:induction false} LeSnoc(s: seq<Byte>, b: Byte)
    ensures LeValue(s + [b]) == LeValue(s) + b as int * Range256(|s|)
  {
    if s == [] {
      assert (s + [b])[1..] == [];
    } else {
      LeSnoc(s[1..], b);
      assert (s + [b])[1..] == s[1..] + [b];
      Distribute(LeValue(s[1..]), b, Range256(|s| - 1));
    }
  }

  lemma NothingRead(s: seq<Byte>)
    requires s == []
    ensures LeValue(s) == 0
  {
  }

  lemma PrefixGrows(bytes: seq<Byte>, start: nat, i: nat)
    requires start + i < |bytes|
    ensures LeValue(bytes[start..start + i + 1])
         == LeValue(bytes[start..start + i]) + bytes[start + i] as int * Range256(i)
  {
    LeSnoc(bytes[start..start + i], bytes[start + i]);
    assert bytes[start..start + i + 1] == bytes[start..start + i] + [bytes[start + i]];
  }

  lemma Distribute(v: nat, b: nat, r: nat)
    ensures 256 * (v + b * r) == 256 * v + b * (256 * r)
  {
  }

  lemma Widths()
    ensures Range256(2) == 0x1_0000 && Range256(4) == 0x1_0000_0000 && Range256(8) == U64
  {
    assert Range256(1) == 256;
    assert Range256(3) == 256 * Range256(2);
    assert Range256(5) == 256 * Range256(4);
    assert Range256(6) == 256 * Range256(5);
    assert Range256(7) == 256 * Range256(6);
  }

  // ----- reading at an offset

  /** A number and the offset behind it. */
  datatype Read = Read(value: nat, next: nat)

  ghost function SkipAt(bytes: seq<Byte>, at: nat, len: nat): Option<nat> {
    if at + len > |bytes| then None else Some(at + len)
  }

  ghost function NumberAt(bytes: seq<Byte>, at: nat, len: nat): Option<Read> {
    if at + len > |bytes| then None else Some(Read(LeValue(bytes[at..at + len]), at + len))
  }

  ghost function VarintAt(bytes: seq<Byte>, at: nat): Option<Read> {
    if at + 1 > |bytes| then None
    else if bytes[at] < 0xfd then Some(Read(bytes[at], at + 1))
    else NumberAt(bytes, at + 1, if bytes[at] == 0xfd then 2 else if bytes[at] == 0xfe then 4 else 8)
  }

  /** The script length at `at` and the offset behind the script. */
  ghost function ScriptAt(bytes: seq<Byte>, at: nat): Option<Read> {
    var len := VarintAt(bytes, at);
    if len.None? || len.value.value > |bytes| then None
    else
      var end := SkipAt(bytes, len.value.next, len.value.value);
      if end.None? then None else Some(Read(len.value.value, end.value))
  }

  ghost function InputsAt(bytes: seq<Byte>, at: nat, count: nat): Option<nat>
    decreases count
  {
    if count == 0 then Some(at)
    else
      var prevout := SkipAt(bytes, at, 36);
      if prevout.None? then None
      else
        var script := ScriptAt(bytes, prevout.value);
        if script.None? then None
        else
          var sequence := SkipAt(bytes, script.value.next, 4);
          if sequence.None? then None else InputsAt(bytes, sequence.value, count - 1)
  }

  datatype Totals = Totals(total: nat, wallet: nat)

  function WrapAdd(a: nat, b: nat): nat {
    (a + b) % U64
  }

  ghost function OutputsAt(bytes: seq<Byte>, at: nat, count: nat, script: seq<Byte>, sums: Totals): Option<Totals>
    decreases count
  {
    if count == 0 then Some(sums)
    else
      var value := NumberAt(bytes, at, 8);
      if value.None? then None
      else
        var out := ScriptAt(bytes, value.value.next);
        if out.None? then None
        else
          var paid := bytes[out.value.next - out.value.value..out.value.next] == script;
          OutputsAt(bytes, out.value.next, count - 1, script,
                    Totals(WrapAdd(sums.total, value.value.value),
                           if paid then WrapAdd(sums.wallet, value.value.value) else sums.wallet))
  }

  /** The input count, behind the marker and flag if they are there. */
  ghost function InputCountAt(bytes: seq<Byte>, at: nat): Option<Read> {
    var count := VarintAt(bytes, at);
    if count.Some? && count.value.value == 0 && count.value.next + 1 <= |bytes| && bytes[count.value.next] == 1
    then VarintAt(bytes, count.value.next + 1)
    else count
  }

  /** What the scan finds. */
  ghost function Scanned(bytes: seq<Byte>, script: seq<Byte>): Option<Totals> {
    var version := SkipAt(bytes, 0, 4);
    if version.None? then None
    else
      var inputs := InputCountAt(bytes, version.value);
      if inputs.None? || inputs.value.value == 0 || inputs.value.value > MAX_INPUTS then None
      else
        var behind := InputsAt(bytes, inputs.value.next, inputs.value.value);
        if behind.None? then None
        else
          var outputs := VarintAt(bytes, behind.value);
          if outputs.None? || outputs.value.value == 0 || outputs.value.value > MAX_OUTPUTS then None
          else
            var sums := OutputsAt(bytes, outputs.value.next, outputs.value.value, script, Totals(0, 0));
            if sums.Some? && sums.value.total > 0 then sums else None
  }

  /** The scan takes one input. */
  lemma InputsStep(bytes: seq<Byte>, at: nat, count: nat)
    ensures InputsAt(bytes, at, 0) == Some(at)
    ensures count > 0 ==>
              var script := if at + 36 > |bytes| then None else ScriptAt(bytes, at + 36);
              InputsAt(bytes, at, count)
              == if script.None? || script.value.next + 4 > |bytes| then None
                 else InputsAt(bytes, script.value.next + 4, count - 1)
  {
    hide ScriptAt;
  }

  /** The scan takes one output. */
  lemma OutputsStep(bytes: seq<Byte>, at: nat, count: nat, script: seq<Byte>, sums: Totals)
    ensures OutputsAt(bytes, at, 0, script, sums) == Some(sums)
    ensures count > 0 ==>
              var value := NumberAt(bytes, at, 8);
              var out := if value.None? then None else ScriptAt(bytes, value.value.next);
              OutputsAt(bytes, at, count, script, sums)
              == if out.None? then None
                 else
                   var paid := bytes[out.value.next - out.value.value..out.value.next] == script;
                   OutputsAt(bytes, out.value.next, count - 1, script,
                             Totals(WrapAdd(sums.total, value.value.value),
                                    if paid then WrapAdd(sums.wallet, value.value.value) else sums.wallet))
  {
    hide ScriptAt, NumberAt, WrapAdd;
  }

  // ----- the reader

  class CoinbaseReader {
    const bytes: seq<Byte>
    var offset: nat

    constructor (bytes: seq<Byte>)
      ensures this.bytes == bytes && offset == 0
    {
      this.bytes := bytes;
      offset := 0;
    }

    /** `payout_read_bytes`: nothing is read past the end. */
    method ReadBytes(len: nat) returns (ok: bool, start: nat)
      modifies this
      ensures ok <==> SkipAt(bytes, old(offset), len).Some?
      ensures ok ==> start == old(offset) && offset == start + len <= |bytes|
    {
      start := offset;
      if offset + len > |bytes| {
        return false, start;
      }
      offset := offset + len;
      ok := true;
    }

    /** `payout_read_u64_le`. */
    method ReadU64() returns (r: Option<nat>)
      modifies this
      ensures r.Some? <==> NumberAt(bytes, old(offset), 8).Some?
      ensures r.Some? ==> NumberAt(bytes, old(offset), 8) == Some(Read(r.value, offset))
    {
      var ok, start := ReadBytes(8);
      if !ok {
        return None;
      }
      var value: nat := 0;
      for i := 8 downto 0
        invariant value == LeValue(bytes[start + i..start + 8])
      {
        assert bytes[start + i..start + 8] == [bytes[start + i]] + bytes[start + i + 1..start + 8];
        value := value * 256 + bytes[start + i];
      }
      r := Some(value);
    }

    /** `payout_read_varint`. */
    method ReadVarint() returns (r: Option<nat>)
      modifies this
      ensures r.Some? <==> VarintAt(bytes, old(offset)).Some?
      ensures r.Some? ==> VarintAt(bytes, old(offset)) == Some(Read(r.value, offset))
    {
      var ok, first := ReadBytes(1);
      if !ok {
        return None;
      }
      if bytes[first] < 0xfd {
        return Some(bytes[first]);
      }
      var count := if bytes[first] == 0xfd then 2 else if bytes[first] == 0xfe then 4 else 8;
      var start;
      ok, start := ReadBytes(count);
      if !ok {
        return None;
      }
      var value: nat := 0;
      NothingRead(bytes[start..start]);
      hide LeValue, Range256;
      for i := 0 to count
        invariant offset == start + count <= |bytes|
        invariant value == LeValue(bytes[start..start + i])
      {
        PrefixGrows(bytes, start, i);
        value := value + bytes[start + i] * Range256(i);
      }
      r := Some(value);
    }

    /** A length and the script it announces. */
    method ReadScript() returns (r: Option<nat>)
      modifies this
      ensures r.Some? <==> ScriptAt(bytes, old(offset)).Some?
      ensures r.Some? ==> ScriptAt(bytes, old(offset)) == Some(Read(r.value, offset))
      ensures r.Some? ==> r.value <= offset <= |bytes|
    {
      r := ReadVarint();
      if r.None? || r.value > |bytes| {
        return None;
      }
      var ok, _ := ReadBytes(r.value);
      if !ok {
        return None;
      }
    }

    /** The count of inputs, behind the marker and flag if they are there. */
    method ReadInputCount() returns (r: Option<nat>)
      modifies this
      ensures r.Some? <==> InputCountAt(bytes, old(offset)).Some?
      ensures r.Some? ==> InputCountAt(bytes, old(offset)) == Some(Read(r.value, offset))
    {
      r := ReadVarint();
      if r.Some? && r.value == 0 && offset + 1 <= |bytes| && bytes[offset] == 1 {
        offset := offset + 1;
        r := ReadVarint();
      }
    }

    method SkipInputs(count: nat) returns (ok: bool)
      modifies this
      ensures ok <==> InputsAt(bytes, old(offset), count).Some?
      ensures ok ==> InputsAt(bytes, old(offset), count) == Some(offset)
    {
      hide InputsAt, ScriptAt;
      for input := 0 to count
        invariant InputsAt(bytes, offset, count - input) == InputsAt(bytes, old(offset), count)
      {
        InputsStep(bytes, offset, count - input);
        var at;
        ok, at := ReadBytes(36);
        if !ok {
          return;
        }
        var script := ReadScript();
        if script.None? {
          return false;
        }
        ok, at := ReadBytes(4);
        if !ok {
          return;
        }
      }
      InputsStep(bytes, offset, 0);
      ok := true;
    }

    method ReadOutputs(count: nat, script: seq<Byte>) returns (r: Option<Totals>)
      modifies this
      ensures r == OutputsAt(bytes, old(offset), count, script, Totals(0, 0))
    {
      hide OutputsAt, ScriptAt, LeValue;
      var total, wallet: nat := 0, 0;
      for output := 0 to count
        invariant OutputsAt(bytes, offset, count - output, script, Totals(total, wallet))
               == OutputsAt(bytes, old(offset), count, script, Totals(0, 0))
      {
        OutputsStep(bytes, offset, count - output, script, Totals(total, wallet));
        var value := ReadU64();
        if value.None? {
          return None;
        }
        var len := ReadScript();
        if len.None? {
          return None;
        }
        total := WrapAdd(total, value.value);
        if len.value == |script| && bytes[offset - len.value..offset] == script {
          wallet := WrapAdd(wallet, value.value);
        }
      }
      OutputsStep(bytes, offset, 0, script, Totals(total, wallet));
      r := Some(Totals(total, wallet));
    }
  }

  /** `payout_scan_coinbase_outputs`. */
  method ScanOutputs(bytes: seq<Byte>, script: seq<Byte>) returns (r: Option<Totals>)
    ensures r == Scanned(bytes, script)
  {
    hide InputCountAt, InputsAt, VarintAt, OutputsAt, LeValue;
    var reader := new CoinbaseReader(bytes);
    var ok, _ := reader.ReadBytes(4);
    if !ok {
      return None;
    }
    var inputs := reader.ReadInputCount();
    if inputs.None? || inputs.value == 0 || inputs.value > MAX_INPUTS {
      return None;
    }
    ok := reader.SkipInputs(inputs.value);
    if !ok {
      return None;
    }
    var outputs := reader.ReadVarint();
    if outputs.None? || outputs.value == 0 || outputs.value > MAX_OUTPUTS {
      return None;
    }
    r := reader.ReadOutputs(outputs.value, script);
    if r.Some? && r.value.total == 0 {
      r := None;
    }
  }

  // ----- what a transaction serialises to

  datatype Input = Input(prevout: seq<Byte>, script: seq<Byte>, sequence: seq<Byte>)
  datatype Output = Output(value: nat, script: seq<Byte>)

  /** `trailer` is the witness data, if any, and the lock time. */
  datatype Tx = Tx(version: seq<Byte>, segwit: bool, inputs: seq<Input>, outputs: seq<Output>, trailer: seq<Byte>)

  predicate InputOk(i: Input) {
    |i.prevout| == 36 && |i.script| < U64 && |i.sequence| == 4
  }

  predicate OutputOk(o: Output) {
    o.value < U64 && |o.script| < U64
  }

  predicate TxOk(tx: Tx) {
    && |tx.version| == 4
    && 1 <= |tx.inputs| <= MAX_INPUTS
    && 1 <= |tx.outputs| <= MAX_OUTPUTS
    && (forall i :: i in tx.inputs ==> InputOk(i))
    && (forall o :: o in tx.outputs ==> OutputOk(o))
  }

  function Varint(v: nat): seq<Byte> {
    if v < 0xfd then [v]
    else if v < 0x1_0000 then [0xfd] + LeBytes(v, 2)
    else if v < 0x1_0000_0000 then [0xfe] + LeBytes(v, 4)
    else [0xff] + LeBytes(v, 8)
  }

  function Script(s: seq<Byte>): seq<Byte> {
    Varint(|s|) + s
  }

  function Inputs(inputs: seq<Input>): seq<Byte> {
    if inputs == [] then []
    else inputs[0].prevout + (Script(inputs[0].script) + (inputs[0].sequence + Inputs(inputs[1..])))
  }

  function Outputs(outputs: seq<Output>): seq<Byte> {
    if outputs == [] then []
    else LeBytes(outputs[0].value, 8) + (Script(outputs[0].script) + Outputs(outputs[1..]))
  }

  function Serialized(tx: Tx): seq<Byte> {
    Join(tx.version, Join(Join(Mark(tx.segwit), Varint(|tx.inputs|)),
      Join(Inputs(tx.inputs), Join(Varint(|tx.outputs|), Join(Outputs(tx.outputs), tx.trailer)))))
  }

  function Join(a: seq<Byte>, b: seq<Byte>): seq<Byte> {
    a + b
  }

  /** What all outputs pay, exactly. */
  function Paid(outputs: seq<Output>): nat {
    if outputs == [] then 0 else outputs[0].value + Paid(outputs[1..])
  }

  /** What the outputs with this script pay, exactly. */
  function PaidTo(outputs: seq<Output>, script: seq<Byte>): nat {
    if outputs == [] then 0
    else (if outputs[0].script == script then outputs[0].value else 0) + PaidTo(outputs[1..], script)
  }

  // ----- reading back what was written

  /** `part` stands at `at`. */
  ghost predicate Has(bytes: seq<Byte>, at: nat, part: seq<Byte>) {
    at + |part| <= |bytes| && bytes[at..at + |part|] == part
  }

  lemma HasBoth(bytes: seq<Byte>, at: nat, a: seq<Byte>, b: seq<Byte>)
    requires Has(bytes, at, a + b)
    ensures Has(bytes, at, a) && Has(bytes, at + |a|, b)
  {
    var both := bytes[at..at + |a + b|];
    assert both[..|a|] == a && both[|a|..] == b;
    assert bytes[at..at + |a|] == both[..|a|];
    assert bytes[at + |a|..at + |a| + |b|] == both[|a|..];
  }

  lemma HasAll(bytes: seq<Byte>)
    ensures Has(bytes, 0, bytes)
  {
  }

  lemma NumberReads(bytes: seq<Byte>, at: nat, v: nat, n: nat)
    requires v < Range256(n)
    requires Has(bytes, at, LeBytes(v, n))
    ensures NumberAt(bytes, at, n) == Some(Read(v, at + n))
  {
    LeRoundTrip(v, n);
  }

  lemma VarintReads(bytes: seq<Byte>, at: nat, v: nat)
    requires v < U64
    requires Has(bytes, at, Varint(v))
    ensures VarintAt(bytes, at) == Some(Read(v, at + |Varint(v)|))
  {
    Widths();
    assert bytes[at] == bytes[at..at + |Varint(v)|][0] == Varint(v)[0];
    if v >= 0xfd {
      var n := if v < 0x1_0000 then 2 else if v < 0x1_0000_0000 then 4 else 8;
      assert Varint(v) == [Varint(v)[0]] + LeBytes(v, n);
      HasBoth(bytes, at, [Varint(v)[0]], LeBytes(v, n));
      NumberReads(bytes, at + 1, v, n);
    }
  }

  lemma ScriptReads(bytes: seq<Byte>, at: nat, s: seq<Byte>)
    requires |s| < U64
    requires Has(bytes, at, Script(s))
    ensures ScriptAt(bytes, at) == Some(Read(|s|, at + |Script(s)|))
    ensures bytes[at + |Script(s)| - |s|..at + |Script(s)|] == s
  {
    hide LeBytes, LeValue, Varint, VarintAt;
    HasBoth(bytes, at, Varint(|s|), s);
    VarintReads(bytes, at, |s|);
  }

  lemma {:induction false} InputsRead(bytes: seq<Byte>, at: nat, inputs: seq<Input>)
    requires forall i :: i in inputs ==> InputOk(i)
    requires Has(bytes, at, Inputs(inputs))
    ensures InputsAt(bytes, at, |inputs|) == Some(at + |Inputs(inputs)|)
    decreases |inputs|
  {
    hide ScriptAt, Script;
    if inputs != [] {
      var i, rest := inputs[0], Inputs(inputs[1..]);
      assert InputOk(i);
      HasBoth(bytes, at, i.prevout, Script(i.script) + (i.sequence + rest));
      HasBoth(bytes, at + 36, Script(i.script), i.sequence + rest);
      ScriptReads(bytes, at + 36, i.script);
      HasBoth(bytes, at + 36 + |Script(i.script)|, i.sequence, rest);
      InputsRead(bytes, at + 40 + |Script(i.script)|, inputs[1..]);
    }
  }

  lemma WrapTwice(a: nat, b: nat, c: nat)
    ensures WrapAdd(WrapAdd(a, b), c) == WrapAdd(a, b + c)
    ensures a < U64 ==> WrapAdd(a, 0) == a
    ensures WrapAdd(a, b) < U64
  {
    var q, r := (a + b) / U64, (a + b) % U64;
    assert a + (b + c) == (r + c) + U64 * q;
    WholeTurns(r + c, q);
  }

  lemma {:induction false} WholeTurns(k: nat, n: nat)
    ensures (k + U64 * n) % U64 == k % U64
  {
    if n > 0 {
      WholeTurns(k, n - 1);
      assert k + U64 * n == (k + U64 * (n - 1)) + U64;
    }
  }

  function AfterOutput(o: Output, script: seq<Byte>, sums: Totals): Totals {
    Totals(WrapAdd(sums.total, o.value), if o.script == script then WrapAdd(sums.wallet, o.value) else sums.wallet)
  }

  /** The sums after all outputs. */
  function AfterAll(outputs: seq<Output>, script: seq<Byte>, sums: Totals): Totals {
    Totals(WrapAdd(sums.total, Paid(outputs)), WrapAdd(sums.wallet, PaidTo(outputs, script)))
  }

  lemma AfterAllStep(outputs: seq<Output>, script: seq<Byte>, sums: Totals)
    requires sums.total < U64 && sums.wallet < U64
    ensures AfterAll([], script, sums) == sums
    ensures outputs != [] ==>
              && AfterAll(outputs, script, sums)
                 == AfterAll(outputs[1..], script, AfterOutput(outputs[0], script, sums))
              && AfterOutput(outputs[0], script, sums).total < U64 && AfterOutput(outputs[0], script, sums).wallet < U64
  {
    hide WrapAdd;
    WrapTwice(sums.total, 0, 0);
    WrapTwice(sums.wallet, 0, 0);
    if outputs != [] {
      WrapTwice(sums.total, outputs[0].value, Paid(outputs[1..]));
      WrapTwice(sums.wallet, outputs[0].value, PaidTo(outputs[1..], script));
    }
  }

  /** The scan takes the first of the outputs left. */
  lemma OutputReads(bytes: seq<Byte>, at: nat, outputs: seq<Output>, script: seq<Byte>, sums: Totals)
    requires outputs != [] && OutputOk(outputs[0])
    requires Has(bytes, at, LeBytes(outputs[0].value, 8))
    requires Has(bytes, at + 8, Script(outputs[0].script))
    ensures OutputsAt(bytes, at, |outputs|, script, sums)
         == OutputsAt(bytes, at + 8 + |Script(outputs[0].script)|, |outputs| - 1, script,
                      AfterOutput(outputs[0], script, sums))
  {
    hide LeBytes, LeValue, Varint, VarintAt, ScriptAt, Script, WrapAdd, OutputsAt;
    Widths();
    NumberReads(bytes, at, outputs[0].value, 8);
    ScriptReads(bytes, at + 8, outputs[0].script);
    OutputsStep(bytes, at, |outputs|, script, sums);
  }

  /** Where an output's value and script stand. */
  lemma OutputParts(bytes: seq<Byte>, at: nat, outputs: seq<Output>)
    requires outputs != [] && Has(bytes, at, Outputs(outputs))
    ensures Has(bytes, at, LeBytes(outputs[0].value, 8))
    ensures Has(bytes, at + 8, Script(outputs[0].script))
    ensures Has(bytes, at + 8 + |Script(outputs[0].script)|, Outputs(outputs[1..]))
  {
    hide LeBytes, Script, Has;
    var o, rest := outputs[0], Outputs(outputs[1..]);
    HasBoth(bytes, at, LeBytes(o.value, 8), Script(o.script) + rest);
    HasBoth(bytes, at + 8, Script(o.script), rest);
  }

  lemma {:induction false} OutputsRead(bytes: seq<Byte>, at: nat, outputs: seq<Output>, script: seq<Byte>, sums: Totals)
    requires forall o :: o in outputs ==> OutputOk(o)
    requires Has(bytes, at, Outputs(outputs))
    requires sums.total < U64 && sums.wallet < U64
    ensures OutputsAt(bytes, at, |outputs|, script, sums) == Some(AfterAll(outputs, script, sums))
    decreases |outputs|
  {
    hide LeBytes, Script, Has, OutputsAt, AfterAll, AfterOutput, Outputs;
    AfterAllStep(outputs, script, sums);
    if outputs == [] {
      OutputsStep(bytes, at, 0, script, sums);
    } else {
      assert OutputOk(outputs[0]);
      OutputParts(bytes, at, outputs);
      OutputReads(bytes, at, outputs, script, sums);
      OutputsRead(bytes, at + 8 + |Script(outputs[0].script)|, outputs[1..], script,
                  AfterOutput(outputs[0], script, sums));
    }
  }

  /** The count of inputs, whether or not the marker and flag stand before it. */
  lemma InputCountReads(bytes: seq<Byte>, at: nat, segwit: bool, count: nat)
    requires 1 <= count <= MAX_INPUTS
    requires Has(bytes, at, Join(Mark(segwit), Varint(count)))
    ensures InputCountAt(bytes, at) == Some(Read(count, at + |Mark(segwit)| + 1))
  {
    var mark := Mark(segwit);
    HasBoth(bytes, at, mark, Varint(count));
    VarintReads(bytes, at + |mark|, count);
    if segwit {
      assert mark == [0] + [1];
      HasBoth(bytes, at, [0], [1]);
      assert bytes[at] == bytes[at..at + 1][0];
      assert bytes[at + 1] == bytes[at + 1..at + 2][0];
    }
  }

  function Mark(segwit: bool): seq<Byte> {
    if segwit then [0, 1] else []
  }

  lemma OneByteVarint(v: nat)
    requires v < 0xfd
    ensures |Varint(v)| == 1
  {
  }

  lemma HasJoined(bytes: seq<Byte>, at: nat, a: seq<Byte>, b: seq<Byte>)
    requires Has(bytes, at, Join(a, b))
    ensures Has(bytes, at, a) && Has(bytes, at + |a|, b) && |Join(a, b)| == |a| + |b|
  {
    HasBoth(bytes, at, a, b);
  }

  lemma FiveParts(a: seq<Byte>, b: seq<Byte>, c: seq<Byte>, d: seq<Byte>, e: seq<Byte>, rest: seq<Byte>)
    ensures var bytes := Join(a, Join(b, Join(c, Join(d, Join(e, rest)))));
            && |bytes| >= |a|
            && Has(bytes, |a|, b)
            && Has(bytes, |a| + |b|, c)
            && Has(bytes, |a| + |b| + |c|, d)
            && Has(bytes, |a| + |b| + |c| + |d|, e)
  {
    hide Has, Join;
    var bytes := Join(a, Join(b, Join(c, Join(d, Join(e, rest)))));
    HasAll(bytes);
    HasJoined(bytes, 0, a, Join(b, Join(c, Join(d, Join(e, rest)))));
    HasJoined(bytes, |a|, b, Join(c, Join(d, Join(e, rest))));
    HasJoined(bytes, |a| + |b|, c, Join(d, Join(e, rest)));
    HasJoined(bytes, |a| + |b| + |c|, d, Join(e, rest));
    HasJoined(bytes, |a| + |b| + |c| + |d|, e, rest);
  }

  function InputsStart(tx: Tx): nat {
    5 + |Mark(tx.segwit)|
  }

  function OutputsStart(tx: Tx): nat {
    InputsStart(tx) + |Inputs(tx.inputs)| + 1
  }

  /** Where the parts of a transaction stand. */
  lemma PartsOf(tx: Tx)
    requires TxOk(tx)
    ensures |Serialized(tx)| >= 4
    ensures Has(Serialized(tx), 4, Join(Mark(tx.segwit), Varint(|tx.inputs|)))
    ensures Has(Serialized(tx), InputsStart(tx), Inputs(tx.inputs))
    ensures Has(Serialized(tx), OutputsStart(tx) - 1, Varint(|tx.outputs|))
    ensures Has(Serialized(tx), OutputsStart(tx), Outputs(tx.outputs))
  {
    PartStarts(tx);
    hide TxOk, Varint, Inputs, Outputs, Has, Mark, Join, InputsStart, OutputsStart;
    FiveParts(tx.version, Join(Mark(tx.segwit), Varint(|tx.inputs|)), Inputs(tx.inputs), Varint(|tx.outputs|),
              Outputs(tx.outputs), tx.trailer);
  }

  lemma PartStarts(tx: Tx)
    requires TxOk(tx)
    ensures var mark, count := Join(Mark(tx.segwit), Varint(|tx.inputs|)), Varint(|tx.outputs|);
            && |tx.version| == 4
            && InputsStart(tx) == |tx.version| + |mark|
            && OutputsStart(tx) - 1 == |tx.version| + |mark| + |Inputs(tx.inputs)|
            && OutputsStart(tx) == |tx.version| + |mark| + |Inputs(tx.inputs)| + |count|
  {
    TxCounts(tx);
    hide TxOk, Inputs, Mark, Join, Varint;
    OneByteVarint(|tx.inputs|);
    OneByteVarint(|tx.outputs|);
    JoinLength(Mark(tx.segwit), Varint(|tx.inputs|));
  }

  lemma TxCounts(tx: Tx)
    requires TxOk(tx)
    ensures |tx.version| == 4 && 1 <= |tx.inputs| <= MAX_INPUTS && 1 <= |tx.outputs| <= MAX_OUTPUTS
  {
  }

  lemma JoinLength(a: seq<Byte>, b: seq<Byte>)
    ensures |Join(a, b)| == |a| + |b|
  {
  }

  lemma ScansCount(tx: Tx)
    requires TxOk(tx)
    ensures |Serialized(tx)| >= 4
    ensures InputCountAt(Serialized(tx), 4) == Some(Read(|tx.inputs|, InputsStart(tx)))
  {
    PartsOf(tx);
    TxCounts(tx);
    hide TxOk, Serialized, Varint, InputCountAt, Inputs, Outputs, Has, Mark, Join;
    InputCountReads(Serialized(tx), 4, tx.segwit, |tx.inputs|);
  }

  lemma ScansInputs(tx: Tx)
    requires TxOk(tx)
    ensures InputsAt(Serialized(tx), InputsStart(tx), |tx.inputs|) == Some(OutputsStart(tx) - 1)
  {
    PartsOf(tx);
    hide Serialized, Varint, Inputs, Outputs, InputsAt, Has, Mark, Join, InputsStart, InputOk, OutputOk;
    InputsRead(Serialized(tx), InputsStart(tx), tx.inputs);
  }

  lemma ScansOutputs(tx: Tx, script: seq<Byte>)
    requires TxOk(tx)
    ensures VarintAt(Serialized(tx), OutputsStart(tx) - 1) == Some(Read(|tx.outputs|, OutputsStart(tx)))
    ensures OutputsAt(Serialized(tx), OutputsStart(tx), |tx.outputs|, script, Totals(0, 0))
         == Some(AfterAll(tx.outputs, script, Totals(0, 0)))
  {
    PartsOf(tx);
    OneByteVarint(|tx.outputs|);
    hide Serialized, Varint, VarintAt, Outputs, OutputsAt, Has, AfterAll, InputsStart;
    VarintReads(Serialized(tx), OutputsStart(tx) - 1, |tx.outputs|);
    OutputsRead(Serialized(tx), OutputsStart(tx), tx.outputs, script, Totals(0, 0));
  }

  /** The scan, step by step. */
  lemma ScanSteps(bytes: seq<Byte>, script: seq<Byte>, inputs: Read, behind: nat, outputs: Read, sums: Totals)
    requires |bytes| >= 4 && InputCountAt(bytes, 4) == Some(inputs) && 1 <= inputs.value <= MAX_INPUTS
    requires InputsAt(bytes, inputs.next, inputs.value) == Some(behind)
    requires VarintAt(bytes, behind) == Some(outputs) && 1 <= outputs.value <= MAX_OUTPUTS
    requires OutputsAt(bytes, outputs.next, outputs.value, script, Totals(0, 0)) == Some(sums)
    ensures Scanned(bytes, script) == if sums.total == 0 then None else Some(sums)
  {
    hide InputCountAt, InputsAt, VarintAt, OutputsAt;
  }

  lemma TotalsFit(total: nat, wallet: nat)
    ensures WrapAdd(0, total) == total % U64 && WrapAdd(0, wallet) == wallet % U64
  {
  }

  /** THE SCAN INVERTS SERIALISATION: it finds the sum of all outputs and of the wallet's outputs,
      both as 64-bit sums, and refuses exactly when the 64-bit total is zero. */
  lemma ScanReads(tx: Tx, script: seq<Byte>)
    requires TxOk(tx)
    ensures Scanned(Serialized(tx), script)
         == if Paid(tx.outputs) % U64 == 0 then None
            else Some(Totals(Paid(tx.outputs) % U64, PaidTo(tx.outputs, script) % U64))
  {
    ScansCount(tx);
    ScansInputs(tx);
    ScansOutputs(tx, script);
    TotalsFit(Paid(tx.outputs), PaidTo(tx.outputs, script));
    hide VarintAt, InputCountAt, InputsAt, OutputsAt, WrapAdd, Paid, PaidTo, Scanned, Serialized;
    hide InputsStart, OutputsStart;
    ScanSteps(Serialized(tx), script, Read(|tx.inputs|, InputsStart(tx)), OutputsStart(tx) - 1,
              Read(|tx.outputs|, OutputsStart(tx)), AfterAll(tx.outputs, script, Totals(0, 0)));
  }

  // ----- the share of the wallet

  datatype Status = UnsupportedWallet | ParseError | Missing | Low | Ok
  datatype Payout = Payout(status: Status, percentX100: nat)

  const MIN_PERCENT_X100: nat := 9700
  const UINT16_MAX: nat := 65535

  function Quotient(a: nat, b: nat): nat
    requires b > 0
  {
    a / b
  }

  /** The share in hundredths of a percent, in 64-bit arithmetic. */
  function Share(wallet: nat, total: nat): nat
    requires total > 0
  {
    Quotient(WrapAdd(wallet * 10000 % U64, total / 2), total)
  }

  ghost function Evaluated(script: Option<seq<Byte>>, bytes: seq<Byte>): Payout {
    if script.None? then Payout(UnsupportedWallet, 0)
    else
      var sums := Scanned(bytes, script.value);
      if sums.None? then Payout(ParseError, 0)
      else if sums.value.wallet == 0 then Payout(Missing, 0)
      else
        var share := Share(sums.value.wallet, sums.value.total);
        var percent := if share > UINT16_MAX then UINT16_MAX else share;
        Payout(if percent < MIN_PERCENT_X100 then Low else Ok, percent)
  }

  /** `stratum_payout_evaluate`; `script` is None for a wallet text without a script. */
  method Evaluate(script: Option<seq<Byte>>, bytes: seq<Byte>) returns (r: Payout)
    ensures r == Evaluated(script, bytes)
  {
    if script.None? {
      return Payout(UnsupportedWallet, 0);
    }
    var sums := ScanOutputs(bytes, script.value);
    if sums.None? {
      return Payout(ParseError, 0);
    }
    if sums.value.wallet == 0 {
      return Payout(Missing, 0);
    }
    var percent := Share(sums.value.wallet, sums.value.total);
    if percent > UINT16_MAX {
      percent := UINT16_MAX;
    }
    r := Payout(if percent < MIN_PERCENT_X100 then Low else Ok, percent);
  }

  lemma {:induction false} PaidToAtMostPaid(outputs: seq<Output>, script: seq<Byte>)
    ensures PaidTo(outputs, script) <= Paid(outputs)
  {
    if outputs != [] {
      PaidToAtMostPaid(outputs[1..], script);
    }
  }

  /** The floor a / b is the only number q with b * q <= a < b * (q + 1). */
  lemma QuotientAtLeast(a: nat, b: nat, q: nat)
    requires b > 0
    ensures Quotient(a, b) >= q <==> a >= b * q
  {
    var f := a / b;
    assert a == b * f + a % b;
    if f >= q {
      assert b * f >= b * q;
    } else {
      assert b * (f + 1) <= b * q;
    }
  }

  /** Whether the 64-bit product and the rounding term fit. */
  predicate NoOverflow(wallet: nat, total: nat) {
    wallet * 10000 + total / 2 < U64
  }

  /** Without overflow the share is the nearest hundredth of a percent (a half is rounded up when
      the total is even), and it is at most 100 percent. */
  lemma ShareRounds(wallet: nat, total: nat)
    requires 0 < total && wallet <= total && NoOverflow(wallet, total)
    ensures Share(wallet, total) <= 10000
    ensures forall q: nat :: Share(wallet, total) >= q <==> 20000 * wallet + total >= 2 * (total * q)
  {
    var a := wallet * 10000 + total / 2;
    assert WrapAdd(wallet * 10000 % U64, total / 2) == a;
    QuotientAtLeast(a, total, 10001);
    forall q: nat ensures Share(wallet, total) >= q <==> 20000 * wallet + total >= 2 * (total * q) {
      QuotientAtLeast(a, total, q);
    }
  }

  /** What the share would be without a limit on the product. */
  function TrueShare(wallet: nat, total: nat): nat
    requires total > 0
  {
    Quotient(wallet * 10000 + total / 2, total)
  }

  /** Every 2^64 that is lost lowers the numerator by more than the total. */
  lemma OverflowLoses(wallet: nat, total: nat) returns (kept: nat)
    requires 0 < total < U64 && wallet <= total && !NoOverflow(wallet, total)
    ensures Share(wallet, total) == Quotient(kept, total)
    ensures kept < U64 && kept + U64 <= wallet * 10000 + total / 2 <= 10000 * total + total / 2
  {
    var a := wallet * 10000 + total / 2;
    kept := a % U64;
    ReduceFirst(wallet * 10000, total / 2);
    hide Quotient;
  }

  lemma ReduceFirst(a: nat, b: nat)
    ensures WrapAdd(a % U64, b) == (a + b) % U64
  {
  }

  /** WHEN THE SHARE IS RIGHT: exactly when the product and the rounding term fit. Even when they do
      not, it is never over 100 percent, and it is never enough. */
  lemma ShareIsRightIff(wallet: nat, total: nat)
    requires 0 < total < U64 && wallet <= total
    ensures Share(wallet, total) == TrueShare(wallet, total) <==> NoOverflow(wallet, total)
    ensures Share(wallet, total) <= 10000
    ensures Share(wallet, total) >= MIN_PERCENT_X100 <==> NoOverflow(wallet, total) && 20000 * wallet >= 19399 * total
  {
    if NoOverflow(wallet, total) {
      ShareFits(wallet, total);
    } else {
      var kept := OverflowLoses(wallet, total);
      KeptTooLittle(kept, wallet, total);
    }
  }

  lemma ShareFits(wallet: nat, total: nat)
    requires 0 < total && wallet <= total && NoOverflow(wallet, total)
    ensures Share(wallet, total) == TrueShare(wallet, total) <= 10000
    ensures Share(wallet, total) >= MIN_PERCENT_X100 <==> 20000 * wallet >= 19399 * total
  {
    ShareRounds(wallet, total);
    NumeratorFits(wallet, total);
    hide Quotient, WrapAdd, NoOverflow;
    assert Share(wallet, total) >= MIN_PERCENT_X100 <==> 20000 * wallet + total >= 2 * (total * MIN_PERCENT_X100);
  }

  lemma NumeratorFits(wallet: nat, total: nat)
    requires NoOverflow(wallet, total)
    ensures WrapAdd(wallet * 10000 % U64, total / 2) == wallet * 10000 + total / 2
  {
  }

  /** What is left after an overflow is less than the true share, and never enough. */
  lemma KeptTooLittle(kept: nat, wallet: nat, total: nat)
    requires 0 < total
    requires kept < U64 && kept + U64 <= wallet * 10000 + total / 2 <= 10000 * total + total / 2 && total < U64
    ensures Quotient(kept, total) < TrueShare(wallet, total)
    ensures Quotient(kept, total) <= 10000 && Quotient(kept, total) < MIN_PERCENT_X100
  {
    hide Quotient;
    QuotientLess(kept, wallet * 10000 + total / 2, total);
    QuotientAtLeast(kept, total, MIN_PERCENT_X100);
  }

  lemma QuotientLess(a: nat, b: nat, d: nat)
    requires d > 0 && a + d <= b
    ensures Quotient(a, d) < Quotient(b, d)
  {
    var q := Quotient(a, d);
    QuotientAtLeast(a, d, q);
    QuotientAtLeast(b, d, q + 1);
    assert d * (q + 1) == d * q + d;
    hide Quotient;
  }

  /** A wallet that is paid everything, 19 million coins, is told it is paid too little. */
  lemma ShareOverflows()
    ensures !NoOverflow(1_900_000_000_000_000, 1_900_000_000_000_000)
    ensures Share(1_900_000_000_000_000, 1_900_000_000_000_000) < MIN_PERCENT_X100
  {
  }

  /** The numerator of the share, as 64 bits keep it. */
  function Numerator(wallet: nat, total: nat): nat {
    (wallet * 10000 + total / 2) % U64
  }

  lemma ShareAtLeast(wallet: nat, total: nat, q: nat)
    requires total > 0
    ensures Share(wallet, total) >= q <==> Numerator(wallet, total) >= total * q
  {
    ReduceFirst(wallet * 10000, total / 2);
    QuotientAtLeast(Numerator(wallet, total), total, q);
    hide Quotient;
  }

  /** A verdict on two 64-bit sums: the share rounded down, within 16 bits, and enough or not. */
  ghost predicate Rated(r: Payout, wallet: nat, total: nat) {
    var n := Numerator(wallet, total);
    && r.percentX100 <= UINT16_MAX
    && (forall q: nat | q <= UINT16_MAX :: r.percentX100 >= q <==> n >= total * q)
    && (r.status == Ok <==> n >= total * MIN_PERCENT_X100)
    && (r.status == Low <==> n < total * MIN_PERCENT_X100)
  }

  lemma VerdictOfSums(script: seq<Byte>, bytes: seq<Byte>, sums: Totals)
    requires Scanned(bytes, script) == Some(sums) && sums.wallet > 0 && sums.total > 0
    ensures Rated(Evaluated(Some(script), bytes), sums.wallet, sums.total)
  {
    hide Scanned, Share, Numerator;
    forall q: nat
      ensures Share(sums.wallet, sums.total) >= q <==> Numerator(sums.wallet, sums.total) >= sums.total * q
    {
      ShareAtLeast(sums.wallet, sums.total, q);
    }
  }

  lemma VerdictBelow(script: seq<Byte>, bytes: seq<Byte>, sums: Totals)
    requires Scanned(bytes, script) == Some(sums) && sums.wallet <= sums.total && 0 < sums.total < U64
    ensures var r := Evaluated(Some(script), bytes);
            && r.percentX100 <= 10000
            && (r.status.Ok? <==> NoOverflow(sums.wallet, sums.total) && 20000 * sums.wallet >= 19399 * sums.total)
  {
    hide Scanned, Share, NoOverflow;
    ShareIsRightIff(sums.wallet, sums.total);
  }

  /** THE VERDICT ON EVERY TRANSACTION: refused exactly for a 64-bit total of zero, missing exactly
      for a 64-bit sum of zero, and otherwise rated by the two 64-bit sums. When the outputs
      together stay below 2^64, it is never over 100 percent and good exactly when the product fits
      and the wallet gets at least 96.995 percent. */
  lemma VerdictIsExact(tx: Tx, script: seq<Byte>)
    requires TxOk(tx)
    ensures var r := Evaluated(Some(script), Serialized(tx));
            var wallet, total := PaidTo(tx.outputs, script), Paid(tx.outputs);
            && !r.status.UnsupportedWallet?
            && (r.status.ParseError? <==> total % U64 == 0)
            && (r.status.Missing? <==> total % U64 != 0 && wallet % U64 == 0)
            && (r.status.ParseError? || r.status.Missing? ==> r.percentX100 == 0)
            && (total % U64 != 0 && wallet % U64 != 0 ==> Rated(r, wallet % U64, total % U64))
            && (0 < total < U64 ==>
                  && r.percentX100 <= 10000
                  && (r.status.Ok? <==> NoOverflow(wallet, total) && 20000 * wallet >= 19399 * total))
  {
    hide Scanned, Serialized, Share, Paid, PaidTo, NoOverflow, Rated;
    var wallet, total := PaidTo(tx.outputs, script), Paid(tx.outputs);
    PaidToAtMostPaid(tx.outputs, script);
    ScanReads(tx, script);
    if total % U64 != 0 && wallet % U64 != 0 {
      VerdictOfSums(script, Serialized(tx), Totals(total % U64, wallet % U64));
    }
    if 0 < total < U64 {
      VerdictBelow(script, Serialized(tx), Totals(total, wallet));
    }
  }
}
