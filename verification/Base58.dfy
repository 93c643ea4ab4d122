/** `payout_base58check_decode` of main/stratum_payout.c: base 58 text to at most 64 bytes by
    multiplying a big-endian byte buffer in place. */
module Base58 {
  import opened Basics
  import opened Positional

  const NUMERALS: string := "123456789"
  const UPPER: string := "ABCDEFGHJKLMNPQRSTUVWXYZ"
  const LOWER: string := "abcdefghijkmnopqrstuvwxyz"
  const ALPHABET: string := NUMERALS + UPPER + LOWER
  const DECODE_MAX: nat := 64

  ghost predicate Distinct(s: string) {
    forall i, j | 0 <= i < j < |s| :: s[i] != s[j]
  }

  predicate Ascending(s: string) {
    forall i | 0 < i < |s| :: s[i - 1] < s[i]
  }

  lemma {:induction false} AscendingOrder(s: string, i: nat, j: nat)
    requires Ascending(s) && i < j < |s|
    ensures s[i] < s[j]
  {
    if i < j - 1 {
      AscendingOrder(s, i, j - 1);
    }
  }

  lemma AscendingDistinct(s: string)
    requires Ascending(s)
    ensures Distinct(s)
    ensures forall i | 0 <= i < |s| :: s[0] <= s[i] <= s[|s| - 1]
  {
    forall i, j | 0 <= i < j < |s| ensures s[i] != s[j] {
      AscendingOrder(s, i, j);
    }
    forall i | 0 <= i < |s| ensures s[0] <= s[i] <= s[|s| - 1] {
      if 0 < i { AscendingOrder(s, 0, i); }
      if i < |s| - 1 { AscendingOrder(s, i, |s| - 1); }
    }
  }

  lemma NumeralsDistinct()
    ensures |NUMERALS| == 9 && Distinct(NUMERALS) && NUMERALS[0] == '1'
    ensures forall i | 0 <= i < 9 :: '1' <= NUMERALS[i] <= '9'
  {
    assert Ascending(NUMERALS);
    hide Ascending;
    AscendingDistinct(NUMERALS);
  }

  lemma UpperDistinct()
    ensures |UPPER| == 24 && Distinct(UPPER) && forall i | 0 <= i < 24 :: 'A' <= UPPER[i] <= 'Z'
  {
    assert Ascending(UPPER);
    hide Ascending;
    AscendingDistinct(UPPER);
  }

  lemma LowerDistinct()
    ensures |LOWER| == 25 && Distinct(LOWER) && forall i | 0 <= i < 25 :: 'a' <= LOWER[i] <= 'z'
  {
    assert Ascending(LOWER);
    hide Ascending;
    AscendingDistinct(LOWER);
  }

  lemma AlphabetDistinct()
    ensures |ALPHABET| == 58 && ALPHABET[0] == '1' && Distinct(ALPHABET)
  {
    NumeralsDistinct();
    UpperDistinct();
    LowerDistinct();
    JoinDistinct(NUMERALS, UPPER, LOWER);
  }

  /** Three distinct ranges of characters joined. */
  lemma JoinDistinct(a: string, b: string, c: string)
    requires Distinct(a) && forall i | 0 <= i < |a| :: '1' <= a[i] <= '9'
    requires Distinct(b) && forall i | 0 <= i < |b| :: 'A' <= b[i] <= 'Z'
    requires Distinct(c) && forall i | 0 <= i < |c| :: 'a' <= c[i] <= 'z'
    ensures Distinct(a + b + c)
  {
    var s := a + b + c;
    assert forall i | 0 <= i < |a| :: s[i] == a[i];
    assert forall i | |a| <= i < |a| + |b| :: s[i] == b[i - |a|];
    assert forall i | |a| + |b| <= i < |s| :: s[i] == c[i - |a| - |b|];
  }

  /** `payout_base58_value`. */
  function CharValue(ch: char): (r: Option<nat>)
    ensures r.Some? ==> r.value < 58
  {
    AlphabetDistinct();
    IndexFrom(ALPHABET, ch, 0)
  }

  // ----- the specification

  ghost function DigitsOf(text: string): (r: Option<seq<nat>>)
    ensures r.Some? ==> |r.value| == |text| && DigitsIn(r.value, 58)
  {
    if text == "" then Some([])
    else
      var rest := DigitsOf(text[..|text| - 1]);
      var last := CharValue(text[|text| - 1]);
      if rest.Some? && last.Some? then Some(rest.value + [last.value]) else None
  }

  function LeadingOnes(text: string): (n: nat)
    ensures n <= |text| && (forall k | 0 <= k < n :: text[k] == '1') && (n < |text| ==> text[n] != '1')
  {
    if text == "" || text[0] != '1' then 0 else 1 + LeadingOnes(text[1..])
  }

  /** The bytes a text stands for: a zero byte per leading '1', then the number. */
  ghost function Raw(text: string): Option<seq<nat>> {
    var digits := DigitsOf(text);
    if digits.None? then None
    else
      var v := Value(digits.value, 58);
      var bytes := Zeros(LeadingOnes(text)) + MinDigits(v, 256);
      if v >= Power(256, DECODE_MAX) || |bytes| < 5 || |bytes| > DECODE_MAX then None else Some(bytes)
  }

  // ----- one character

  ghost function CarryOut(carry: nat, n: nat): nat {
    carry * Power(256, n)
  }

  /** Multiplying one more byte and passing the carry on. */
  lemma CarryStep(carry: nat, d: nat, q: nat, r: nat, n: nat, low: nat, was: nat, digit: nat)
    requires carry + d * 58 == q * 256 + r
    requires CarryOut(carry, n) + low == was * 58 + digit
    ensures CarryOut(q, n + 1) + (CarryOut(r, n) + low) == (CarryOut(d, n) + was) * 58 + digit
  {
    var p := Power(256, n);
    Splits(q, r, p);
    Gathers(carry, d, p, was);
  }

  lemma Splits(q: nat, r: nat, p: nat)
    ensures q * (p * 256) + r * p == (q * 256 + r) * p
  {
    assert q * (p * 256) == (q * 256) * p;
  }

  lemma Gathers(carry: nat, d: nat, p: nat, was: nat)
    ensures (carry + d * 58) * p + was * 58 == carry * p + (d * p + was) * 58
  {
    assert (d * 58) * p == (d * p) * 58;
  }

  /** One turn of the inner loop. */
  lemma TurnKeeps(d: nat, carry: nat, q: nat, r: nat, low: seq<nat>, was: seq<nat>, digit: nat)
    requires carry + d * 58 == q * 256 + r && |low| == |was|
    requires CarryOut(carry, |low|) + Value(low, 256) == Value(was, 256) * 58 + digit
    ensures CarryOut(q, |low| + 1) + Value([r] + low, 256) == Value([d] + was, 256) * 58 + digit
  {
    hide Value, Power, CarryOut;
    LeadingByte(d, was);
    LeadingByte(r, low);
    CarryStep(carry, d, q, r, |low|, Value(low, 256), Value(was, 256), digit);
  }

  lemma CarrySmall(carry: nat, d: nat)
    requires d < 256 && carry < 58
    ensures var t := carry + d * 58;
            t / 256 < 58 && t == t / 256 * 256 + t % 256
  {
  }

  lemma LeadingByte(d: nat, s: seq<nat>)
    ensures Value([d] + s, 256) == CarryOut(d, |s|) + Value(s, 256)
  {
    LeadingDigit(d, s, 256);
  }

  /** The inner loop: multiply the buffer by 58 and add a digit. The carry left over fits a
      byte. */
  method MultiplyAdd(number: array<nat>, len: nat, digit: nat) returns (carry: nat)
    requires len <= number.Length && digit < 58 && DigitsIn(number[..len], 256)
    modifies number
    ensures DigitsIn(number[..len], 256) && carry < 58
    ensures CarryOut(carry, len) + Value(number[..len], 256) == Value(old(number[..len]), 256) * 58 + digit
    ensures number[len..] == old(number[len..])
  {
    hide Value, Power, CarryOut;
    ghost var was := number[..len];
    carry := digit;
    ValueNothing(digit);
    assert number[len..len] == [] && was[len..] == [];
    for i := 0 to len
      invariant carry < 58
      invariant number[..len - i] == was[..len - i] && number[len..] == old(number[len..])
      invariant DigitsIn(number[len - i..len], 256)
      invariant CarryOut(carry, i) + Value(number[len - i..len], 256) == Value(was[len - i..], 256) * 58 + digit
    {
      var index := len - 1 - i;
      ghost var low := number[len - i..len];
      assert number[index] == was[index];
      FrontOf(was, index);
      CarrySmall(carry, number[index]);
      ghost var d, c := number[index], carry;
      carry := carry + number[index] * 58;
      TurnKeeps(d, c, carry / 256, carry % 256, low, was[len - i..], digit);
      number[index] := carry % 256;
      carry := carry / 256;
      FrontOf(number[..len], index);
      assert number[..len][index..] == number[index..len] && number[..len][index + 1..] == low;
    }
    assert number[0..len] == number[..len] && was[0..] == was;
  }

  lemma FrontOf(s: seq<nat>, i: nat)
    requires i < |s|
    ensures s[i..] == [s[i]] + s[i + 1..]
  {
  }

  lemma ValueNothing(digit: nat)
    ensures CarryOut(digit, 0) + Value([], 256) == Value([], 256) * 58 + digit
  {
  }

  // ----- the whole text

  lemma {:induction false} NoDigits(text: string, n: nat)
    requires n <= |text| && DigitsOf(text[..n]).None?
    ensures DigitsOf(text).None?
    decreases |text| - n
  {
    if n == |text| {
      assert text[..n] == text;
    } else {
      assert text[..n + 1][..n] == text[..n];
      NoDigits(text, n + 1);
    }
  }

  lemma {:induction false} DigitsPrefix(text: string, n: nat)
    requires n <= |text| && DigitsOf(text).Some?
    ensures DigitsOf(text[..n]) == Some(DigitsOf(text).value[..n])
  {
    if n == |text| {
      assert text[..n] == text && DigitsOf(text).value[..n] == DigitsOf(text).value;
    } else {
      var m := |text| - 1;
      DigitsPrefix(text[..m], n);
      assert text[..m][..n] == text[..n];
      assert DigitsOf(text).value[..m] == DigitsOf(text[..m]).value;
      assert DigitsOf(text).value[..m][..n] == DigitsOf(text).value[..n];
    }
  }

  lemma {:induction false} ValueGrows(s: seq<nat>, n: nat)
    requires n <= |s|
    ensures Value(s[..n], 58) <= Value(s, 58)
  {
    if n == |s| {
      assert s[..n] == s;
    } else {
      var m := |s| - 1;
      ValueGrows(s[..m], n);
      assert s[..m][..n] == s[..n];
    }
  }

  /** A prefix whose number needs more than 64 bytes rules out the whole text. */
  lemma PrefixTooLarge(text: string, n: nat)
    requires n <= |text| && DigitsOf(text[..n]).Some?
    requires Value(DigitsOf(text[..n]).value, 58) >= Power(256, DECODE_MAX)
    ensures Raw(text) == None
  {
    hide Value, Power, DigitsOf;
    if DigitsOf(text).Some? {
      DigitsPrefix(text, n);
      ValueGrows(DigitsOf(text).value, n);
    }
  }

  /** Moves the buffer up one place and puts a byte in front. */
  method Prepend(number: array<nat>, len: nat, first: nat)
    requires len < number.Length
    modifies number
    ensures number[..len + 1] == [first] + old(number[..len])
  {
    forall k | 1 <= k <= len {
      number[k] := number[k - 1];
    }
    number[0] := first;
  }

  /** The carry's own bytes become new leading bytes. */
  method PushCarry(number: array<nat>, len: nat, carry: nat) returns (ok: bool, len': nat)
    requires number.Length == DECODE_MAX && len <= DECODE_MAX && DigitsIn(number[..len], 256)
    modifies number
    ensures len <= len' <= DECODE_MAX && DigitsIn(number[..len'], 256)
    ensures ok ==> Value(number[..len'], 256) == CarryOut(carry, len) + Value(old(number[..len]), 256)
    ensures !ok ==> CarryOut(carry, len) + Value(old(number[..len]), 256) >= Power(256, DECODE_MAX)
  {
    hide Value, Power, CarryOut;
    var rest := carry;
    len' := len;
    while rest > 0
      invariant len <= len' <= DECODE_MAX && DigitsIn(number[..len'], 256)
      invariant CarryOut(rest, len') + Value(number[..len'], 256)
                == CarryOut(carry, len) + Value(old(number[..len]), 256)
      decreases rest
    {
      if len' >= DECODE_MAX {
        CarryTooLarge(rest, len');
        return false, len';
      }
      LeadingDigit(rest % 256, number[..len'], 256);
      CarryByte(rest, len');
      Prepend(number, len', rest % 256);
      len' := len' + 1;
      rest := rest / 256;
    }
    NoCarry(len');
    ok := true;
  }

  lemma CarryTooLarge(carry: nat, n: nat)
    requires carry > 0 && n >= DECODE_MAX
    ensures CarryOut(carry, n) >= Power(256, DECODE_MAX)
  {
    hide Power;
    PowerMonotone(256, DECODE_MAX, n);
    AtLeastOnce(carry, Power(256, n));
  }

  lemma AtLeastOnce(k: nat, p: nat)
    requires k > 0
    ensures k * p >= p
  {
  }

  lemma CarryByte(carry: nat, n: nat)
    ensures CarryOut(carry, n) == CarryOut(carry / 256, n + 1) + carry % 256 * Power(256, n)
  {
    var p := Power(256, n);
    assert carry == carry / 256 * 256 + carry % 256;
    assert (carry / 256 * 256 + carry % 256) * p == carry / 256 * (p * 256) + carry % 256 * p;
  }

  lemma NoCarry(n: nat)
    ensures CarryOut(0, n) == 0
  {
  }

  lemma NextDigit(text: string, i: nat)
    requires i < |text| && DigitsOf(text[..i]).Some? && CharValue(text[i]).Some?
    ensures DigitsOf(text[..i + 1]) == Some(DigitsOf(text[..i]).value + [CharValue(text[i]).value])
    ensures Value(DigitsOf(text[..i + 1]).value, 58)
            == Value(DigitsOf(text[..i]).value, 58) * 58 + CharValue(text[i]).value
  {
    assert text[..i + 1][..i] == text[..i];
    var before := DigitsOf(text[..i]).value;
    assert (before + [CharValue(text[i]).value])[..i] == before;
  }

  /** The loop over the text: the buffer holds the number of the characters read. */
  method ReadNumber(text: string, number: array<nat>) returns (ok: bool, len: nat)
    requires number.Length == DECODE_MAX && forall k | 0 <= k < DECODE_MAX :: number[k] == 0
    modifies number
    ensures len <= DECODE_MAX && DigitsIn(number[..len], 256)
    ensures !ok ==> Raw(text) == None
    ensures ok ==> DigitsOf(text).Some? && Value(number[..len], 256) == Value(DigitsOf(text).value, 58)
    ensures ok ==> Value(number[..len], 256) < Power(256, DECODE_MAX)
  {
    hide Value, Power, DigitsOf, CarryOut, Raw;
    len := 1;
    NothingRead(number[..1]);
    assert text[..0] == "";
    for i := 0 to |text|
      invariant 1 <= len <= DECODE_MAX && DigitsIn(number[..len], 256)
      invariant DigitsOf(text[..i]).Some? && Value(number[..len], 256) == Value(DigitsOf(text[..i]).value, 58)
    {
      var digit := CharValue(text[i]);
      if digit.None? {
        BadCharacter(text, i);
        return false, len;
      }
      NextDigit(text, i);
      var carry := MultiplyAdd(number, len, digit.value);
      ok, len := PushCarry(number, len, carry);
      if !ok {
        PrefixTooLarge(text, i + 1);
        return;
      }
    }
    assert text[..|text|] == text;
    ok := true;
    ValueBound(number[..len], 256);
    PowerMonotone(256, len, DECODE_MAX);
  }

  lemma NothingRead(number: seq<nat>)
    requires number == [0]
    ensures DigitsOf("") == Some([]) && Value(number, 256) == Value([], 58)
  {
  }

  lemma BadCharacter(text: string, i: nat)
    requires i < |text| && CharValue(text[i]).None?
    ensures Raw(text) == None
  {
    assert text[..i + 1][..i] == text[..i];
    NoDigits(text, i + 1);
  }

  lemma ZerosInFront(s: seq<nat>, n: nat)
    requires n <= |s| && forall k | 0 <= k < n :: s[k] == 0
    ensures s == Zeros(n) + s[n..]
  {
    var t := Zeros(n) + s[n..];
    assert forall k | 0 <= k < |s| :: s[k] == t[k];
  }

  /** The bytes of the decoded text, before its checksum is looked at. */
  method DecodeRaw(text: string) returns (r: Option<seq<nat>>)
    ensures r == Raw(text)
  {
    hide Value, Power, DigitsOf;
    var number := new nat[DECODE_MAX](_ => 0);
    var leading := 0;
    while leading < |text| && text[leading] == '1'
      invariant leading <= LeadingOnes(text)
    {
      leading := leading + 1;
    }
    assert leading == LeadingOnes(text);
    var ok, len := ReadNumber(text, number);
    if !ok {
      return None;
    }
    var first := 0;
    while first < len && number[first] == 0
      invariant first <= len && forall k | 0 <= k < first :: number[k] == 0
    {
      first := first + 1;
    }
    ZerosInFront(number[..len], first);
    assert number[..len][first..] == number[first..len];
    LeadingZeros(first, number[first..len], 256);
    MinDigitsUnique(number[first..len], 256);
    var decodedLen := leading + len - first;
    if decodedLen < 5 || decodedLen > DECODE_MAX {
      return None;
    }
    r := Some(Zeros(leading) + number[first..len]);
  }

  /** The last four bytes are the first four of the hash of the others. */
  ghost predicate ChecksumFits(raw: seq<nat>, doubleSha: seq<nat> -> seq<nat>) {
    |raw| >= 4 && |doubleSha(raw[..|raw| - 4])| >= 4 &&
    doubleSha(raw[..|raw| - 4])[..4] == raw[|raw| - 4..]
  }

  /** `payout_base58check_decode`, with the double SHA-256 as a parameter. */
  method DecodeChecked(text: string, doubleSha: seq<nat> -> seq<nat>) returns (r: Option<seq<nat>>)
    requires forall data :: |doubleSha(data)| == 32
    ensures r.Some? <==> Raw(text).Some? && ChecksumFits(Raw(text).value, doubleSha)
    ensures r.Some? ==> r.value == Raw(text).value[..|Raw(text).value| - 4]
  {
    r := DecodeRaw(text);
    if r.Some? {
      var raw := r.value;
      var checksum := doubleSha(raw[..|raw| - 4]);
      if checksum[..4] != raw[|raw| - 4..] {
        return None;
      }
      r := Some(raw[..|raw| - 4]);
    }
  }

  // ----- the reference encoder and its inverse

  function LeadingZeroBytes(bytes: seq<nat>): (n: nat)
    ensures n <= |bytes| && (forall k | 0 <= k < n :: bytes[k] == 0) && (n < |bytes| ==> bytes[n] != 0)
  {
    if bytes == [] || bytes[0] != 0 then 0 else 1 + LeadingZeroBytes(bytes[1..])
  }

  function TextOf(digits: seq<nat>): (r: string)
    requires forall i | 0 <= i < |digits| :: digits[i] < |ALPHABET|
    ensures |r| == |digits|
  {
    seq(|digits|, i requires 0 <= i < |digits| => ALPHABET[digits[i]])
  }

  /** Base 58: a '1' per leading zero byte, then the number without leading zeros. */
  ghost function Encoded(bytes: seq<nat>): string {
    AlphabetDistinct();
    MinDigitsSpell(Value(bytes, 256), 58);
    TextOf(Zeros(LeadingZeroBytes(bytes)) + MinDigits(Value(bytes, 256), 58))
  }

  lemma CharValueOfDigit(d: nat)
    requires d < 58
    ensures |ALPHABET| == 58 && CharValue(ALPHABET[d]) == Some(d)
    ensures ALPHABET[d] == '1' <==> d == 0
  {
    AlphabetDistinct();
    var r := CharValue(ALPHABET[d]);
    assert r.Some?;
  }

  lemma {:induction false} DigitsOfText(digits: seq<nat>)
    requires DigitsIn(digits, 58) && |ALPHABET| == 58
    ensures DigitsOf(TextOf(digits)) == Some(digits)
  {
    if digits == [] {
    } else {
      var n := |digits| - 1;
      CharValueOfDigit(digits[n]);
      DigitsOfText(digits[..n]);
      assert TextOf(digits)[..n] == TextOf(digits[..n]);
      assert TextOf(digits)[n] == ALPHABET[digits[n]];
      assert digits[..n] + [digits[n]] == digits;
    }
  }

  /** The '1's in front of the encoded number stand for the zero bytes and nothing else. */
  lemma OnesOfText(n: nat, digits: seq<nat>)
    requires DigitsIn(digits, 58) && Minimal(digits) && |ALPHABET| == 58
    ensures DigitsIn(Zeros(n) + digits, 58) && LeadingOnes(TextOf(Zeros(n) + digits)) == n
  {
    hide ALPHABET;
    var all := Zeros(n) + digits;
    var text := TextOf(all);
    forall k | 0 <= k < |all| ensures text[k] == '1' <==> all[k] == 0 {
      CharValueOfDigit(all[k]);
    }
    assert n < |all| ==> all[n] == digits[0];
  }

  /** Decoding undoes the encoder for every byte string the buffer can hold. */
  lemma DecodeUndoesEncode(bytes: seq<nat>)
    requires DigitsIn(bytes, 256) && 5 <= |bytes| <= DECODE_MAX
    ensures Raw(Encoded(bytes)) == Some(bytes)
  {
    hide Value, Power, DigitsOf, MinDigits, TextOf, LeadingOnes;
    AlphabetDistinct();
    var z := LeadingZeroBytes(bytes);
    var v := Value(bytes, 256);
    var digits := MinDigits(v, 58);
    MinDigitsSpell(v, 58);
    OnesOfText(z, digits);
    DigitsOfText(Zeros(z) + digits);
    LeadingZeros(z, digits, 58);
    assert bytes == Zeros(z) + bytes[z..];
    LeadingZeros(z, bytes[z..], 256);
    MinDigitsUnique(bytes[z..], 256);
    ValueBound(bytes, 256);
    PowerMonotone(256, |bytes|, DECODE_MAX);
  }

  lemma {:induction false} DigitAt(text: string, i: nat)
    requires DigitsOf(text).Some? && i < |text|
    ensures CharValue(text[i]) == Some(DigitsOf(text).value[i])
  {
    hide CharValue;
    if i < |text| - 1 {
      DigitAt(text[..|text| - 1], i);
    }
  }

  lemma CharOfValue(ch: char)
    requires CharValue(ch).Some?
    ensures |ALPHABET| == 58 && ALPHABET[CharValue(ch).value] == ch
    ensures CharValue(ch).value == 0 <==> ch == '1'
  {
    AlphabetDistinct();
  }

  /** The digits of a text: zeros for its leading ones, then no zero. */
  lemma DigitsSplit(text: string)
    requires DigitsOf(text).Some?
    ensures var digits, n := DigitsOf(text).value, LeadingOnes(text);
            |ALPHABET| == 58 && TextOf(digits) == text && digits == Zeros(n) + digits[n..] && Minimal(digits[n..])
  {
    hide DigitsOf, CharValue, ALPHABET;
    AlphabetDistinct();
    var digits, n := DigitsOf(text).value, LeadingOnes(text);
    forall k | 0 <= k < |text| ensures ALPHABET[digits[k]] == text[k] && (digits[k] == 0 <==> text[k] == '1') {
      DigitAt(text, k);
      CharOfValue(text[k]);
    }
    ZerosInFront(digits, n);
    assert forall k | 0 <= k < |text| :: TextOf(digits)[k] == text[k];
    assert n < |text| ==> digits[n..][0] == digits[n];
  }

  lemma ZeroBytesOf(n: nat, bytes: seq<nat>)
    requires Minimal(bytes)
    ensures LeadingZeroBytes(Zeros(n) + bytes) == n
  {
    var all := Zeros(n) + bytes;
    assert n < |all| ==> all[n] == bytes[0];
  }

  /** And encoding undoes the decoder: the bytes come from no other text. */
  lemma EncodeUndoesDecode(text: string)
    requires Raw(text).Some?
    ensures Encoded(Raw(text).value) == text
  {
    DigitsSplit(text);
    hide Value, Power, DigitsOf, MinDigits, TextOf, LeadingOnes, Minimal;
    var digits, n := DigitsOf(text).value, LeadingOnes(text);
    var v := Value(digits, 58);
    LeadingZeros(n, digits[n..], 58);
    MinDigitsUnique(digits[n..], 58);
    MinDigitsSpell(v, 256);
    ZeroBytesOf(n, MinDigits(v, 256));
    LeadingZeros(n, MinDigits(v, 256), 256);
  }
}
