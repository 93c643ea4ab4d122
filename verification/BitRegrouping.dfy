/** Regrouping a string of fixed-width symbols into symbols of another width, as
    `payout_bech32_convert_bits` of main/stratum_payout.c does with a 32-bit accumulator.

    The specification speaks of the number the symbols spell; the accumulator's upper bits
    wrap away and never matter. */
module BitRegrouping {
  import opened Basics

  const WORD: nat := 0x1_0000_0000

  function Pow2(n: nat): (r: nat)
    ensures r > 0
  {
    if n == 0 then 1 else 2 * Pow2(n - 1)
  }

  /** The number a big-endian string of `bits`-wide symbols spells. */
  function Value(s: seq<nat>, bits: nat): nat {
    if s == [] then 0 else Value(s[..|s| - 1], bits) * Pow2(bits) + s[|s| - 1]
  }

  ghost predicate Fits(s: seq<nat>, bits: nat) {
    forall i | 0 <= i < |s| :: s[i] < Pow2(bits)
  }

  function Times(a: nat, b: nat): nat {
    a * b
  }

  function Quotient(x: nat, d: nat): nat
    requires d > 0
  {
    x / d
  }

  function Remainder(x: nat, d: nat): (r: nat)
    requires d > 0
    ensures r < d
  {
    x % d
  }

  /** The `n` lowest symbols of `v`. */
  function Digits(v: nat, n: nat, bits: nat): (r: seq<nat>)
    ensures |r| == n
    decreases n
  {
    if n == 0 then [] else Digits(Quotient(v, Pow2(bits)), n - 1, bits) + [Remainder(v, Pow2(bits))]
  }

  // ----- powers of two and remainders

  lemma {:induction false} Pow2Add(a: nat, b: nat)
    ensures Pow2(a + b) == Pow2(a) * Pow2(b)
  {
    if a == 0 {
    } else {
      Pow2Add(a - 1, b);
    }
  }

  lemma Pow2Word()
    ensures Pow2(32) == WORD
  {
    assert Pow2(8) == 256;
    Pow2Add(8, 8);
    Pow2Add(16, 16);
  }

  lemma TimesMonotone(a: nat, b: nat, d: nat)
    ensures a <= b ==> a * d <= b * d
    ensures (a + 1) * d == a * d + d
  {
  }

  /** Dividing with remainder is unique. */
  lemma DivUnique(x: nat, q: nat, r: nat, d: nat)
    requires d > 0 && x == q * d + r && r < d
    ensures Quotient(x, d) == q && Remainder(x, d) == r
  {
    var q', r' := x / d, x % d;
    assert x == q' * d + r';
    TimesMonotone(q + 1, q', d);
    TimesMonotone(q, 0, d);
    TimesMonotone(q' + 1, q, d);
    TimesMonotone(q', 0, d);
  }

  lemma DivMod(x: nat, d: nat)
    requires d > 0
    ensures Quotient(x, d) * d + Remainder(x, d) == x
  {
  }

  lemma BelowProduct(a: nat, s: nat, q: nat, p: nat)
    requires a < q && s < p
    ensures a * p + s < q * p
  {
    TimesMonotone(a + 1, q, p);
    TimesMonotone(a, 0, p);
  }

  lemma QuotientBelow(v: nat, q: nat, p: nat)
    requires p > 0 && v < q * p
    ensures Quotient(v, p) < q
  {
    DivMod(v, p);
    TimesMonotone(q, Quotient(v, p), p);
  }

  /** The low part of a number splits like the number itself. */
  lemma ModSplit(x: nat, a: nat, b: nat)
    requires a > 0 && b > 0
    ensures a * b > 0
    ensures Remainder(x, a * b) == Remainder(Quotient(x, b), a) * b + Remainder(x, b)
  {
    var q := Quotient(x, b);
    var low := Remainder(q, a) * b + Remainder(x, b);
    DivMod(x, b);
    DivMod(q, a);
    BelowProduct(Remainder(q, a), Remainder(x, b), a, b);
    assert Quotient(q, a) * a * b == Quotient(q, a) * (a * b);
    assert q * b == (Quotient(q, a) * a) * b + Remainder(q, a) * b;
    DivUnique(x, Quotient(q, a), low, a * b);
  }

  /** Reducing modulo a multiple first changes nothing. */
  lemma ModOfMod(x: nat, a: nat, b: nat)
    requires a > 0 && b > 0
    ensures a * b > 0 && Remainder(Remainder(x, a * b), b) == Remainder(x, b)
  {
    ModSplit(x, a, b);
    DivUnique(Remainder(x, a * b), Remainder(Quotient(x, b), a), Remainder(x, b), b);
  }

  // ----- digits

  lemma {:induction false} ValueBound(s: seq<nat>, bits: nat)
    requires Fits(s, bits)
    ensures Value(s, bits) < Pow2(Times(|s|, bits))
  {
    hide Pow2, Times;
    if s == [] {
      PowersStart(bits);
    } else {
      var n := |s| - 1;
      ValueBound(s[..n], bits);
      PowersNext(n, bits);
      BelowProduct(Value(s[..n], bits), s[n], Pow2(Times(n, bits)), Pow2(bits));
    }
  }

  lemma PowersStart(bits: nat)
    ensures Pow2(Times(0, bits)) == 1
  {
  }

  lemma PowersNext(n: nat, bits: nat)
    ensures Pow2(Times(n + 1, bits)) == Pow2(Times(n, bits)) * Pow2(bits)
  {
    hide Pow2;
    Pow2Add(Times(n, bits), bits);
    assert Times(n + 1, bits) == Times(n, bits) + bits;
  }

  /** A symbol string is determined by its length and its number. */
  lemma {:induction false} DigitsOfValue(s: seq<nat>, bits: nat)
    requires Fits(s, bits)
    ensures Digits(Value(s, bits), |s|, bits) == s
  {
    if s == [] {
    } else {
      var n := |s| - 1;
      DivUnique(Value(s, bits), Value(s[..n], bits), s[n], Pow2(bits));
      DigitsOfValue(s[..n], bits);
    }
  }

  lemma {:induction false} DigitsFit(v: nat, n: nat, bits: nat)
    ensures Fits(Digits(v, n, bits), bits)
    decreases n
  {
    hide Pow2, Quotient, Remainder;
    if n > 0 {
      DigitsFit(Quotient(v, Pow2(bits)), n - 1, bits);
    }
  }

  lemma {:induction false} ValueOfDigits(v: nat, n: nat, bits: nat)
    requires v < Pow2(Times(n, bits))
    ensures Value(Digits(v, n, bits), bits) == v && Fits(Digits(v, n, bits), bits)
    decreases n
  {
    hide Pow2, Times, Quotient, Remainder;
    if n == 0 {
      PowersStart(bits);
    } else {
      var p := Pow2(bits);
      PowersNext(n - 1, bits);
      QuotientBelow(v, Pow2(Times(n - 1, bits)), p);
      ValueOfDigits(Quotient(v, p), n - 1, bits);
      DivMod(v, p);
      assert Digits(v, n, bits)[..n - 1] == Digits(Quotient(v, p), n - 1, bits);
    }
  }

  // ----- the specification

  /** Symbols of width `from` regrouped to width `to`: with `pad` the last group is filled
      with zero bits; without it fewer than `from` bits may be left and they must be zero. */
  ghost function Regrouped(input: seq<nat>, from: nat, to: nat, pad: bool, capacity: nat): Option<seq<nat>>
    requires to > 0
  {
    var groups, left := Quotient(Times(|input|, from), to), Remainder(Times(|input|, from), to);
    var v := Value(input, from);
    if !Fits(input, from) then None
    else if pad then
      var n := if left > 0 then groups + 1 else groups;
      if n > capacity then None
      else Some(Digits(if left > 0 then Times(v, Pow2(to - left)) else v, n, to))
    else if groups > capacity || left >= from || Remainder(v, Pow2(left)) != 0 then None
    else Some(Digits(Quotient(v, Pow2(left)), groups, to))
  }

  // ----- the accumulator

  /** What the loop knows: the groups written and the low `bits` bits of the accumulator
      spell the symbols read. */
  ghost predicate Spelled(input: seq<nat>, from: nat, output: seq<nat>, to: nat, acc: nat, bits: nat) {
    && Fits(input, from) && Fits(output, to)
    && Times(|input|, from) == Times(|output|, to) + bits
    && Value(input, from) == Times(Value(output, to), Pow2(bits)) + Remainder(acc, Pow2(bits))
  }

  /** Shifting a symbol in, modulo the accumulator's width. */
  lemma ShiftIn(acc: nat, bits: nat, from: nat, x: nat) returns (acc': nat)
    requires bits + from <= 32 && x < Pow2(from)
    ensures acc' == Remainder(Times(acc, Pow2(from)), WORD) + x
    ensures Remainder(acc', Pow2(bits + from)) == Times(Remainder(acc, Pow2(bits)), Pow2(from)) + x
  {
    var p := Pow2(from);
    var shifted := Times(acc, p);
    acc' := Remainder(shifted, WORD) + x;
    // the wrap only drops multiples of 2^(bits + from)
    Pow2Word();
    Pow2Add(32 - bits - from, bits + from);
    ModOfMod(shifted, Pow2(32 - bits - from), Pow2(bits + from));
    Pow2Add(bits, from);
    DivUnique(shifted, acc, 0, p);
    ModSplit(shifted, Pow2(bits), p);
    var low := Times(Remainder(acc, Pow2(bits)), p);
    assert Remainder(Remainder(shifted, WORD), Pow2(bits + from)) == low;
    AddBelow(Remainder(shifted, WORD), low, x, Remainder(acc, Pow2(bits)), Pow2(bits), p);
  }

  lemma AddBelow(y: nat, low: nat, x: nat, a: nat, m: nat, p: nat)
    requires m > 0 && p > 0 && a < m && x < p && low == Times(a, p)
    requires Times(m, p) > 0 && Remainder(y, Times(m, p)) == low
    ensures Remainder(y + x, Times(m, p)) == low + x
  {
    BelowProduct(a, x, m, p);
    DivMod(y, Times(m, p));
    DivUnique(y + x, Quotient(y, Times(m, p)), low + x, Times(m, p));
  }

  lemma ShiftOut(v: nat, r: nat, p: nat, q: nat)
    ensures Times(Times(v, p) + r, q) == Times(v, Times(p, q)) + Times(r, q)
  {
    assert (v * p + r) * q == (v * p) * q + r * q;
    assert (v * p) * q == v * (p * q);
  }

  lemma TimesNext(n: nat, k: nat)
    ensures Times(n + 1, k) == Times(n, k) + k
  {
  }

  lemma Pow2Times(a: nat, b: nat)
    ensures Pow2(a + b) == Times(Pow2(a), Pow2(b))
  {
    Pow2Add(a, b);
  }

  lemma Snoc(s: seq<nat>, x: nat, bits: nat)
    ensures Value(s + [x], bits) == Times(Value(s, bits), Pow2(bits)) + x
    ensures Fits(s, bits) && x < Pow2(bits) <==> Fits(s + [x], bits)
  {
    assert (s + [x])[..|s|] == s;
    if Fits(s + [x], bits) {
      assert (s + [x])[|s|] == x;
      assert forall i | 0 <= i < |s| :: (s + [x])[i] == s[i];
    }
  }

  lemma ReadSymbol(input: seq<nat>, from: nat, output: seq<nat>, to: nat, acc: nat, bits: nat, x: nat)
    returns (acc': nat)
    requires Spelled(input, from, output, to, acc, bits)
    requires bits + from <= 32 && x < Pow2(from)
    ensures acc' == Remainder(Times(acc, Pow2(from)), WORD) + x
    ensures Spelled(input + [x], from, output, to, acc', bits + from)
  {
    hide Times, Pow2, Remainder, Value, Fits;
    acc' := ShiftIn(acc, bits, from, x);
    Snoc(input, x, from);
    Pow2Times(bits, from);
    ShiftOut(Value(output, to), Remainder(acc, Pow2(bits)), Pow2(bits), Pow2(from));
    TimesNext(|input|, from);
  }

  lemma WriteGroup(input: seq<nat>, from: nat, output: seq<nat>, to: nat, acc: nat, bits: nat)
    requires Spelled(input, from, output, to, acc, bits) && bits >= to
    ensures var group := Remainder(Quotient(acc, Pow2(bits - to)), Pow2(to));
            Spelled(input, from, output + [group], to, acc, bits - to)
  {
    hide Times, Pow2, Remainder, Quotient, Value, Fits;
    var group := Remainder(Quotient(acc, Pow2(bits - to)), Pow2(to));
    Pow2Times(to, bits - to);
    SplitRemainder(acc, Pow2(to), Pow2(bits - to));
    Snoc(output, group, to);
    ShiftOut(Value(output, to), group, Pow2(to), Pow2(bits - to));
    TimesNext(|output|, to);
  }

  lemma SplitRemainder(x: nat, a: nat, b: nat)
    requires a > 0 && b > 0
    ensures Times(a, b) > 0
    ensures Remainder(x, Times(a, b)) == Times(Remainder(Quotient(x, b), a), b) + Remainder(x, b)
  {
    ModSplit(x, a, b);
  }

  lemma SpelledNothing(from: nat, to: nat)
    ensures Spelled([], from, [], to, 0, 0)
  {
  }

  lemma NoLargeSymbol(input: seq<nat>, i: nat, from: nat)
    requires i < |input| && input[i] >= Pow2(from)
    ensures !Fits(input, from)
  {
  }

  /** The leftover bits shifted to the top of a group, as the accumulator shows them. */
  function TopGroup(acc: nat, bits: nat, to: nat): nat
    requires bits < to
  {
    Remainder(Remainder(Times(acc, Pow2(to - bits)), WORD), Pow2(to))
  }

  lemma TopGroupIs(acc: nat, bits: nat, to: nat)
    requires bits < to <= 8
    ensures TopGroup(acc, bits, to) == Times(Remainder(acc, Pow2(bits)), Pow2(to - bits)) < Pow2(to)
  {
    var shifted := Times(acc, Pow2(to - bits));
    Pow2Word();
    Pow2Add(32 - to, to);
    ModOfMod(shifted, Pow2(32 - to), Pow2(to));
    Pow2Add(bits, to - bits);
    DivUnique(shifted, acc, 0, Pow2(to - bits));
    ModSplit(shifted, Pow2(bits), Pow2(to - bits));
  }

  lemma TimesZero(a: nat, p: nat)
    requires p > 0
    ensures Times(a, p) == 0 <==> a == 0
  {
    TimesMonotone(1, a, p);
  }

  /** Once everything is read, the groups are the quotient and the accumulator the rest. */
  lemma GroupCount(input: seq<nat>, from: nat, output: seq<nat>, to: nat, acc: nat, bits: nat)
    requires Spelled(input, from, output, to, acc, bits) && bits < to
    ensures |output| == Quotient(Times(|input|, from), to) && bits == Remainder(Times(|input|, from), to)
    ensures Value(output, to) == Quotient(Value(input, from), Pow2(bits))
    ensures Remainder(acc, Pow2(bits)) == Remainder(Value(input, from), Pow2(bits))
    ensures bits == 0 ==> Value(output, to) == Value(input, from)
  {
    DivUnique(Times(|input|, from), |output|, bits, to);
    DivUnique(Value(input, from), Value(output, to), Remainder(acc, Pow2(bits)), Pow2(bits));
  }

  lemma TooManyGroups(input: seq<nat>, i: nat, from: nat, written: nat, to: nat, pad: bool)
    requires i <= |input| && to > 0 && Times(i, from) >= Times(written + 1, to)
    ensures Regrouped(input, from, to, pad, written) == None
  {
    TimesMonotone(i, |input|, from);
    var total := Times(|input|, from);
    DivMod(total, to);
    TimesMonotone(Quotient(total, to) + 1, written + 1, to);
    TimesMonotone(Quotient(total, to), 0, to);
  }

  lemma PadGroup(input: seq<nat>, from: nat, output: seq<nat>, to: nat, acc: nat, bits: nat)
    requires Spelled(input, from, output, to, acc, bits) && 0 < bits < to <= 8
    ensures var padded := output + [TopGroup(acc, bits, to)];
            Digits(Times(Value(input, from), Pow2(to - bits)), |output| + 1, to) == padded
  {
    hide Times, Pow2, Remainder, Value, Fits, TopGroup, Digits, Quotient;
    TopGroupIs(acc, bits, to);
    Snoc(output, TopGroup(acc, bits, to), to);
    Pow2Times(bits, to - bits);
    ShiftOut(Value(output, to), Remainder(acc, Pow2(bits)), Pow2(bits), Pow2(to - bits));
    DigitsOfValue(output + [TopGroup(acc, bits, to)], to);
  }

  /** `payout_bech32_convert_bits`. */
  method ConvertBits(input: seq<nat>, from: nat, to: nat, pad: bool, capacity: nat)
    returns (r: Option<seq<nat>>)
    requires 1 <= from <= 8 && 1 <= to <= 8
    ensures r == Regrouped(input, from, to, pad, capacity)
  {
    hide Times, Pow2, Remainder, Quotient, Value, Fits, TopGroup;
    var acc: nat, bits: nat := 0, 0;
    var out: seq<nat> := [];
    SpelledNothing(from, to);
    assert input[..0] == [];
    for i := 0 to |input|
      invariant bits < to && |out| <= capacity
      invariant Spelled(input[..i], from, out, to, acc, bits)
    {
      if input[i] >= Pow2(from) {
        NoLargeSymbol(input, i, from);
        return None;
      }
      ghost var _ := ReadSymbol(input[..i], from, out, to, acc, bits, input[i]);
      acc := Remainder(Times(acc, Pow2(from)), WORD) + input[i];
      bits := bits + from;
      assert input[..i + 1] == input[..i] + [input[i]];
      while bits >= to
        invariant |out| <= capacity
        invariant Spelled(input[..i + 1], from, out, to, acc, bits)
        decreases bits
      {
        WriteGroup(input[..i + 1], from, out, to, acc, bits);
        if |out| >= capacity {
          TimesMonotone(|out|, 0, to);
          TooManyGroups(input, i + 1, from, |out|, to, pad);
          return None;
        }
        bits := bits - to;
        out := out + [Remainder(Quotient(acc, Pow2(bits)), Pow2(to))];
      }
    }
    assert input[..|input|] == input;
    GroupCount(input, from, out, to, acc, bits);
    TopGroupIs(acc, bits, to);
    TimesZero(Remainder(acc, Pow2(bits)), Pow2(to - bits));
    DigitsOfValue(out, to);
    if pad {
      if bits > 0 {
        if |out| >= capacity {
          return None;
        }
        PadGroup(input, from, out, to, acc, bits);
        out := out + [TopGroup(acc, bits, to)];
      }
    } else if bits >= from || TopGroup(acc, bits, to) != 0 {
      return None;
    }
    r := Some(out);
  }

  // ----- round trip

  /** The number of 5-bit symbols that hold `n` bytes, and the bits of padding. */
  lemma PaddedLength(n: nat) returns (k: nat, extra: nat)
    ensures extra < 5 && 5 * k == 8 * n + extra && k <= 2 * n
    ensures Remainder(Times(n, 8), 5) == 0 ==> extra == 0 && k == Quotient(Times(n, 8), 5)
    ensures Remainder(Times(n, 8), 5) > 0 ==>
              extra == 5 - Remainder(Times(n, 8), 5) && k == Quotient(Times(n, 8), 5) + 1
    ensures Quotient(Times(k, 5), 8) == n && Remainder(Times(k, 5), 8) == extra
  {
    var groups, left := 8 * n / 5, 8 * n % 5;
    extra := if left > 0 then 5 - left else 0;
    k := if left > 0 then groups + 1 else groups;
    assert 8 * n == 5 * groups + left;
    DivUnique(Times(n, 8), groups, left, 5);
    DivUnique(Times(k, 5), n, extra, 8);
  }

  lemma PaddedValue(bytes: seq<nat>, k: nat, extra: nat)
    requires Fits(bytes, 8) && 5 * k == 8 * |bytes| + extra
    ensures Times(Value(bytes, 8), Pow2(extra)) < Pow2(Times(k, 5))
  {
    hide Pow2, Value, Fits;
    ValueBound(bytes, 8);
    Pow2Add(Times(|bytes|, 8), extra);
    assert Times(k, 5) == Times(|bytes|, 8) + extra;
    BelowProduct(Value(bytes, 8), 0, Pow2(Times(|bytes|, 8)), Pow2(extra));
  }

  lemma PaddedSplits(v: nat, extra: nat)
    ensures Quotient(Times(v, Pow2(extra)), Pow2(extra)) == v
    ensures Remainder(Times(v, Pow2(extra)), Pow2(extra)) == 0
    ensures Times(v, Pow2(0)) == v
  {
    DivUnique(Times(v, Pow2(extra)), v, 0, Pow2(extra));
  }

  /** Padding bytes to 5-bit symbols and regrouping those to bytes returns the bytes. */
  lemma PadThenRegroup(bytes: seq<nat>, capacity: nat, capacity': nat)
    requires Fits(bytes, 8) && capacity >= 2 * |bytes| && capacity' >= |bytes|
    ensures var padded := Regrouped(bytes, 8, 5, true, capacity);
            && padded.Some? && Fits(padded.value, 5)
            && 8 * |bytes| <= 5 * |padded.value| < 8 * |bytes| + 5
            && Regrouped(padded.value, 5, 8, false, capacity') == Some(bytes)
  {
    hide Times, Pow2, Remainder, Quotient, Value, Fits;
    var k, extra := PaddedLength(|bytes|);
    var v := Value(bytes, 8);
    PaddedValue(bytes, k, extra);
    ValueOfDigits(Times(v, Pow2(extra)), k, 5);
    PaddedSplits(v, extra);
    DigitsOfValue(bytes, 8);
  }

  lemma RegroupedValue(v: nat, k: nat, n: nat, left: nat)
    requires v < Pow2(Times(k, 5)) && 5 * k == 8 * n + left && Remainder(v, Pow2(left)) == 0
    ensures Quotient(v, Pow2(left)) < Pow2(Times(n, 8))
    ensures Times(Quotient(v, Pow2(left)), Pow2(left)) == v
  {
    hide Pow2, Quotient, Remainder;
    Pow2Add(Times(n, 8), left);
    assert Times(k, 5) == Times(n, 8) + left;
    QuotientBelow(v, Pow2(Times(n, 8)), Pow2(left));
    DivMod(v, Pow2(left));
  }

  lemma RegroupedLength(k: nat)
    requires Remainder(Times(k, 5), 8) < 5
    ensures var n, left := Quotient(Times(k, 5), 8), Remainder(Times(k, 5), 8);
            && 5 * k == 8 * n + left
            && Remainder(Times(n, 8), 5) == (if left == 0 then 0 else 5 - left)
            && Quotient(Times(n, 8), 5) == (if left == 0 then k else k - 1)
  {
    var n, left := Quotient(Times(k, 5), 8), Remainder(Times(k, 5), 8);
    DivMod(Times(k, 5), 8);
    DivUnique(Times(n, 8), if left == 0 then k else k - 1, if left == 0 then 0 else 5 - left, 5);
  }

  /** And padding undoes regrouping: the bytes come from no other symbols. */
  lemma RegroupThenPad(symbols: seq<nat>, capacity: nat, capacity': nat)
    requires Regrouped(symbols, 5, 8, false, capacity).Some? && capacity' >= |symbols|
    ensures var bytes := Regrouped(symbols, 5, 8, false, capacity).value;
            Fits(bytes, 8) && Regrouped(bytes, 8, 5, true, capacity') == Some(symbols)
  {
    hide Times, Pow2, Remainder, Quotient, Value, Fits;
    var k, v := |symbols|, Value(symbols, 5);
    RegroupedLength(k);
    var n, left := Quotient(Times(k, 5), 8), Remainder(Times(k, 5), 8);
    ValueBound(symbols, 5);
    RegroupedValue(v, k, n, left);
    ValueOfDigits(Quotient(v, Pow2(left)), n, 8);
    DigitsOfValue(symbols, 5);
    PaddedSplits(Quotient(v, Pow2(0)), 0);
  }
}
